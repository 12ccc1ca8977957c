/** The schedule's clockwork: persistent splay values, the tick test and drift compensation. */
module Scheduler {
  import opened Text

  // ----- splay -----

  const MAX_INTERVAL := 604800

  /** What the truncated float product of interval and percentage may be: on intervals up to a week the
      float error stays below fifteen hundredths. */
  predicate Rounded(original: nat, percent: nat, difference: nat) {
    100 * difference <= original * percent + 15 && original * percent < 100 * (difference + 1) + 15
  }

  lemma DifferenceWithin(original: nat, percent: nat, difference: nat)
    requires percent <= 100 && Rounded(original, percent, difference)
    ensures difference <= original
  {
    assert original * percent <= original * 100;
  }

  function Max(a: int, b: int): int { if a < b then b else a }

  /** `splayValue`: `roll` is what the random engine delivers, mapped onto the allowed range. */
  function SplayValue(original: nat, percent: nat, difference: nat, roll: nat): (v: nat)
    requires original >= 1 && (1 <= percent <= 100 ==> Rounded(original, percent, difference))
    ensures 1 <= v <= 2 * original
    ensures 1 <= percent <= 100 ==> original * (100 - percent) - 15 <= 100 * v <= original * (100 + percent) + 15
    ensures percent == 0 || percent > 100 ==> v == original
  {
    if percent == 0 || percent > 100 then original
    else
      DifferenceWithin(original, percent, difference);
      var maxValue, minValue := original + difference, Max(1, original - difference);
      if maxValue == minValue then maxValue else
      assert original * (100 - percent) == original * 100 - original * percent;
      assert original * (100 + percent) == original * 100 + original * percent;
      minValue + roll % (maxValue - minValue + 1)
  }

  /** Every value of the range can be drawn. */
  lemma EveryValueIsDrawn(original: nat, percent: nat, difference: nat, v: nat)
    requires original >= 1 && 1 <= percent <= 100 && Rounded(original, percent, difference)
    requires 1 <= v && original - difference <= v <= original + difference
    ensures exists roll :: SplayValue(original, percent, difference, roll) == v
  {
    hide Rounded;
    DifferenceWithin(original, percent, difference);
    var low := Max(1, original - difference);
    var roll := v - low;
    SmallRemainder(roll, original + difference - low + 1);
    assert SplayValue(original, percent, difference, roll) == v;
  }

  lemma SmallRemainder(a: nat, m: nat)
    requires a < m
    ensures a % m == a
  {
  }

  /** The persisted `interval.<name>` entries. */
  type Cache = map<string, string>

  function Entry(interval: nat, splay: nat): string {
    Join([ToString(interval), ToString(splay)], ':')
  }

  /** The splay an entry holds for this interval, if it is readable and positive. */
  function Cached(content: string, interval: nat): Option<nat> {
    var details := Split(content, ':');
    if |details| != 2 then None
    else
      var last, splay := TryToLongLong(details[0]), TryToLongLong(details[1]);
      if last == Some(interval) && splay.Some? && splay.value > 0 then Some(splay.value) else None
  }

  /** A request for the splay of a query, with the splay percentage in force, the rounded product of
      interval and percentage, and the state of the random engine. */
  datatype AnyRequest = Request(name: string, interval: nat, percent: nat, difference: nat, roll: nat)

  /** The pack loader lets only such intervals through. */
  type Request = r: AnyRequest |
    1 <= r.interval <= MAX_INTERVAL && (1 <= r.percent <= 100 ==> Rounded(r.interval, r.percent, r.difference))
    witness Request("", 1, 0, 0, 0)

  /** The value a new draw gives. */
  function Draw(r: Request): nat {
    SplayValue(r.interval, r.percent, r.difference, r.roll)
  }

  function Hit(cache: Cache, name: string, interval: nat): Option<nat> {
    if name in cache then Cached(cache[name], interval) else None
  }

  /** `restoreSplayedValue`: the value returned and the cache left behind. */
  function Splay(cache: Cache, r: Request): nat {
    Hit(cache, r.name, r.interval).GetOr(Draw(r))
  }

  function After(cache: Cache, r: Request): Cache {
    if Hit(cache, r.name, r.interval).Some? then cache else cache[r.name := Entry(r.interval, Draw(r))]
  }

  class SplayCache {
    var cache: Cache

    constructor ()
      ensures cache == map[]
    {
      cache := map[];
    }

    method RestoreSplayedValue(r: Request) returns (splay: nat)
      modifies this
      ensures splay == Splay(old(cache), r) && cache == After(old(cache), r)
    {
      hide Split, TryToLongLong, SplayValue, Entry;
      if r.name in cache && cache[r.name] != "" {
        var details := Split(cache[r.name], ':');
        if |details| == 2 {
          var lastInterval, lastSplay := TryToLongLong(details[0]), TryToLongLong(details[1]);
          if lastInterval.Some? && lastSplay.Some? {
            if lastInterval.value == r.interval && lastSplay.value > 0 {
              return lastSplay.value;
            }
          }
        }
      }
      SplitNothing(':');
      splay := SplayValue(r.interval, r.percent, r.difference, r.roll);
      EntryText(r.interval, splay);
      cache := cache[r.name := ToString(r.interval) + ":" + ToString(splay)];
    }
  }

  lemma EntryText(interval: nat, splay: nat)
    ensures Entry(interval, splay) == ToString(interval) + ":" + ToString(splay)
  {
    var a, b := ToString(interval), ToString(splay);
    assert [a, b][1..] == [b];
    assert Join([b], ':') == b;
    assert Join([a, b], ':') == a + [':'] + b;
  }

  lemma SplitNothing(c: char)
    ensures Split("", c) == []
  {
    assert SplitRaw("", c) == [""] && [""][1..] == [];
    assert DropEmpty([""]) == [];
  }

  /** An entry written for an interval is found again for that interval only. */
  lemma EntryRoundTrip(interval: nat, splay: nat, asked: nat)
    requires interval < LLONG_BOUND && 1 <= splay < LLONG_BOUND
    ensures Cached(Entry(interval, splay), asked) == if asked == interval then Some(splay) else None
  {
    hide Split, TryToLongLong, ToString, Join;
    NumberIsClean(interval, ':');
    NumberIsClean(splay, ':');
    NumberRoundTrip(interval);
    NumberRoundTrip(splay);
    SplitJoin([ToString(interval), ToString(splay)], ':');
  }

  /** An entry of two clean pieces is used exactly when the first is the interval asked for and the second a
      positive number. */
  lemma PairIsUsedIff(a: string, b: string, asked: nat)
    requires CleanPiece(a, ':') && CleanPiece(b, ':')
    ensures Cached(Join([a, b], ':'), asked).Some? <==>
            TryToLongLong(a) == Some(asked) && TryToLongLong(b).Some? && TryToLongLong(b).value > 0
  {
    hide Split, Join, TryToLongLong;
    SplitJoin([a, b], ':');
  }

  /** A single piece is not. */
  lemma SinglePieceIsIgnored(a: string, asked: nat)
    requires CleanPiece(a, ':')
    ensures Cached(a, asked) == None
  {
    hide Split, TryToLongLong;
    SplitJoin([a], ':');
    assert Join([a], ':') == a;
  }

  /** The cache holds only entries this code wrote. */
  ghost predicate Written(cache: Cache) {
    forall name :: name in cache ==> exists r: Request :: cache[name] == Entry(r.interval, Draw(r))
  }

  function AfterAll(cache: Cache, rs: seq<Request>): Cache {
    if rs == [] then cache else After(AfterAll(cache, rs[..|rs| - 1]), rs[|rs| - 1])
  }

  lemma SplayStep(cache: Cache, r: Request)
    requires Written(cache)
    ensures Written(After(cache, r)) && 1 <= Splay(cache, r) <= 2 * r.interval
    ensures Hit(After(cache, r), r.name, r.interval) == Some(Splay(cache, r))
  {
    hide Cached, Entry, SplayValue;
    if Hit(cache, r.name, r.interval).Some? {
      var w: Request :| cache[r.name] == Entry(w.interval, Draw(w));
      EntryRoundTrip(w.interval, Draw(w), r.interval);
    } else {
      EntryRoundTrip(r.interval, Draw(r), r.interval);
    }
  }

  lemma {:induction false} AllWritten(rs: seq<Request>)
    ensures Written(AfterAll(map[], rs))
  {
    if rs != [] {
      AllWritten(rs[..|rs| - 1]);
      SplayStep(AfterAll(map[], rs[..|rs| - 1]), rs[|rs| - 1]);
    }
  }

  /** Whatever was requested before, a splayed interval lies between one and twice the interval. */
  lemma SplayIsBounded(rs: seq<Request>, r: Request)
    ensures 1 <= Splay(AfterAll(map[], rs), r) <= 2 * r.interval
  {
    AllWritten(rs);
    SplayStep(AfterAll(map[], rs), r);
  }

  lemma {:induction false} HitStays(cache: Cache, rs: seq<Request>, name: string, interval: nat, v: nat)
    requires Hit(cache, name, interval) == Some(v)
    requires forall i :: 0 <= i < |rs| ==> rs[i].name != name || rs[i].interval == interval
    ensures Hit(AfterAll(cache, rs), name, interval) == Some(v)
  {
    hide Cached, Entry, Draw;
    if rs != [] {
      HitStays(cache, rs[..|rs| - 1], name, interval, v);
    }
  }

  /** Splay is sticky: once given out for a name and interval, the same value comes back on every later call,
      across restarts and whatever is drawn, until the name is asked for with another interval. */
  lemma SplayIsSticky(before: seq<Request>, first: Request, between: seq<Request>, again: Request)
    requires again.name == first.name && again.interval == first.interval
    requires forall i :: 0 <= i < |between| ==> between[i].name != first.name || between[i].interval == first.interval
    ensures var c := AfterAll(map[], before);
            Splay(AfterAll(After(c, first), between), again) == Splay(c, first)
  {
    hide Cached, Entry, Draw;
    var c := AfterAll(map[], before);
    AllWritten(before);
    SplayStep(c, first);
    HitStays(After(c, first), between, first.name, first.interval, Splay(c, first));
  }

  // ----- ticks -----

  predicate Fires(tick: nat, splayed: nat) {
    splayed > 0 && tick % splayed == 0
  }

  /** A query fires at the multiples of its splayed interval, and never without one. */
  lemma FiresAtMultiples(tick: nat, splayed: nat)
    ensures Fires(tick, splayed) <==> splayed > 0 && exists k: nat :: tick == k * splayed
  {
    if splayed > 0 {
      assert tick == tick / splayed * splayed + tick % splayed;
      if k: nat :| tick == k * splayed {
        DivideSum(k, 0, splayed);
      }
    }
  }

  /** After a tick that fires, the next one to fire is exactly the splayed interval later. */
  lemma GapIsSplay(tick: nat, splayed: nat, k: nat)
    requires Fires(tick, splayed) && 1 <= k <= splayed
    ensures Fires(tick + k, splayed) <==> k == splayed
  {
    assert tick == tick / splayed * splayed;
    if k < splayed {
      DivideSum(tick / splayed, k, splayed);
    } else {
      DivideSum(tick / splayed + 1, 0, splayed);
    }
  }

  lemma AtLeastOne(n: int, d: nat)
    requires n >= 1
    ensures n * d >= d
  {
    assert n * d == d + (n - 1) * d;
  }

  /** The remainder is the only number below d that leaves a multiple of d. */
  lemma DivideSum(q: nat, r: nat, d: nat)
    requires r < d
    ensures (q * d + r) % d == r
  {
    var x := q * d + r;
    var k := x / d;
    assert x == k * d + x % d;
    assert q * d - k * d == (q - k) * d && k * d - q * d == (k - q) * d;
    if q > k {
      AtLeastOne(q - k, d);
    } else if k > q {
      AtLeastOne(k - q, d);
    }
  }

  /** How many ticks after `from` the next firing one is. */
  function NextFiring(from: nat, splayed: nat): (n: nat)
    requires splayed >= 1
    ensures n < splayed
  {
    var r := from % splayed;
    if r == 0 then 0 else splayed - r
  }

  lemma NextFires(from: nat, splayed: nat)
    requires splayed >= 1
    ensures Fires(from + NextFiring(from, splayed), splayed)
  {
    var r := from % splayed;
    assert from == from / splayed * splayed + r;
    if r > 0 {
      assert from + (splayed - r) == (from / splayed + 1) * splayed + 0;
      DivideSum(from / splayed + 1, 0, splayed);
    }
  }

  /** A query splayed by at most twice its interval fires in every stretch of three intervals: this is the
      pace at which buffered events may expire. */
  lemma FiresInEveryWindow(from: nat, splayed: nat, interval: nat, maxInterval: nat)
    requires 1 <= splayed <= 2 * interval && interval <= maxInterval
    ensures exists c :: from <= c < from + 3 * maxInterval && Fires(c, splayed)
  {
    NextFires(from, splayed);
    var c := from + NextFiring(from, splayed);
    assert from <= c < from + 3 * maxInterval && Fires(c, splayed);
  }

  // ----- drift -----

  /** The drift carried over, and the total given up so far. */
  datatype Lag = Lag(drift: nat, abandoned: nat)

  function NextLag(lag: Lag, duration: nat, interval: nat, maxDrift: nat): Lag {
    if duration + lag.drift < interval then Lag(0, lag.abandoned)
    else
      var drift := lag.drift + duration - interval;
      if drift > maxDrift then Lag(0, lag.abandoned + drift) else Lag(drift, lag.abandoned)
  }

  function LagAfter(durations: seq<nat>, interval: nat, maxDrift: nat): Lag {
    if durations == [] then Lag(0, 0)
    else NextLag(LagAfter(durations[..|durations| - 1], interval, maxDrift), durations[|durations| - 1], interval, maxDrift)
  }

  /** The timing of the loop of `SchedulerRunner::start`, with pauses that last exactly as asked. */
  method RunTicks(durations: seq<nat>, interval: nat, maxDrift: nat)
    returns (drift: nat, elapsed: nat, abandoned: nat)
    ensures drift <= maxDrift
    ensures elapsed == |durations| * interval + drift + abandoned
    ensures (forall i :: 0 <= i < |durations| ==> durations[i] <= interval) ==> drift == 0 && abandoned == 0
    ensures Lag(drift, abandoned) == LagAfter(durations, interval, maxDrift)
    ensures abandoned == 0 <==> Bearable(durations, interval, maxDrift)
    ensures abandoned == 0 ==> GreatestEnding(durations, interval, drift)
  {
    hide LagAfter;
    LagStart(durations, interval, maxDrift);
    drift, elapsed, abandoned := 0, 0, 0;
    for i := 0 to |durations|
      invariant drift <= maxDrift
      invariant elapsed == i * interval + drift + abandoned
      invariant (forall k :: 0 <= k < i ==> durations[k] <= interval) ==> drift == 0 && abandoned == 0
      invariant Lag(drift, abandoned) == LagAfter(durations[..i], interval, maxDrift)
    {
      LagNext(durations, i, interval, maxDrift);
      var d := durations[i];
      if d + drift < interval {
        elapsed := elapsed + d + (interval - d - drift);
        drift := 0;
      } else {
        elapsed := elapsed + d;
        drift := drift + d - interval;
        if drift > maxDrift {
          abandoned := abandoned + drift;
          drift := 0;
        }
      }
    }
    assert durations[..|durations|] == durations;
    DriftIsExcess(durations, interval, maxDrift);
  }

  lemma LagStart(durations: seq<nat>, interval: nat, maxDrift: nat)
    ensures LagAfter(durations[..0], interval, maxDrift) == Lag(0, 0)
  {
  }

  lemma LagNext(durations: seq<nat>, i: nat, interval: nat, maxDrift: nat)
    requires i < |durations|
    ensures LagAfter(durations[..i + 1], interval, maxDrift) ==
            NextLag(LagAfter(durations[..i], interval, maxDrift), durations[i], interval, maxDrift)
  {
    assert durations[..i + 1][..i] == durations[..i];
  }

  // what drift is, apart from how it is computed

  /** Total work of the ticks minus one interval for each. */
  function Overrun(durations: seq<nat>, interval: nat): int {
    if durations == [] then 0
    else Overrun(durations[..|durations| - 1], interval) + durations[|durations| - 1] - interval
  }

  /** No stretch of ticks overruns by more than the bound. */
  ghost predicate Bearable(durations: seq<nat>, interval: nat, maxDrift: nat) {
    forall i, j :: 0 <= i <= j <= |durations| ==> Overrun(durations[i..j], interval) <= maxDrift
  }

  /** The greatest overrun of a stretch that ends now, the empty one included. */
  ghost predicate GreatestEnding(durations: seq<nat>, interval: nat, v: int) {
    && (exists i :: 0 <= i <= |durations| && Overrun(durations[i..], interval) == v)
    && (forall i :: 0 <= i <= |durations| ==> Overrun(durations[i..], interval) <= v)
  }

  lemma OverrunNext(durations: seq<nat>, i: nat, interval: nat)
    requires durations != [] && i < |durations|
    ensures var init := durations[..|durations| - 1];
            Overrun(durations[i..], interval) == Overrun(init[i..], interval) + durations[|durations| - 1] - interval
  {
    var init := durations[..|durations| - 1];
    var s := durations[i..];
    assert s[..|s| - 1] == init[i..];
  }

  lemma GreatestNext(durations: seq<nat>, interval: nat, v: int)
    requires durations != [] && GreatestEnding(durations[..|durations| - 1], interval, v)
    ensures GreatestEnding(durations, interval, Max(0, v + durations[|durations| - 1] - interval))
  {
    hide Overrun;
    var n, init := |durations| - 1, durations[..|durations| - 1];
    forall i | 0 <= i <= n
      ensures Overrun(durations[i..], interval) == Overrun(init[i..], interval) + durations[n] - interval
    {
      OverrunNext(durations, i, interval);
    }
    NothingOverruns(durations, interval);
    var i :| 0 <= i <= |init| && Overrun(init[i..], interval) == v;
    assert Overrun(durations[i..], interval) == v + durations[n] - interval;
  }

  lemma NothingOverruns(durations: seq<nat>, interval: nat)
    ensures Overrun(durations[|durations|..], interval) == 0
  {
  }

  /** A longer run is bearable exactly when its beginning is and its greatest overrun now is. */
  lemma BearableNext(durations: seq<nat>, interval: nat, maxDrift: nat, v: int)
    requires durations != [] && GreatestEnding(durations, interval, v)
    ensures Bearable(durations, interval, maxDrift) <==>
            Bearable(durations[..|durations| - 1], interval, maxDrift) && v <= maxDrift
  {
    hide Overrun;
    var n, init := |durations|, durations[..|durations| - 1];
    assert forall i, j :: 0 <= i <= j <= n - 1 ==> init[i..j] == durations[i..j];
    assert forall i :: 0 <= i <= n ==> durations[i..n] == durations[i..];
    if Bearable(durations, interval, maxDrift) {
      var i :| 0 <= i <= n && Overrun(durations[i..], interval) == v;
      assert Overrun(durations[i..n], interval) <= maxDrift;
    }
  }

  /** Nothing is abandoned exactly when no stretch of ticks overruns by more than the bound, and then the
      drift is the greatest overrun of a stretch that ends now. */
  lemma {:induction false} DriftIsExcess(durations: seq<nat>, interval: nat, maxDrift: nat)
    ensures var lag := LagAfter(durations, interval, maxDrift);
            && (lag.abandoned == 0 <==> Bearable(durations, interval, maxDrift))
            && (lag.abandoned == 0 ==> GreatestEnding(durations, interval, lag.drift))
  {
    if durations == [] {
      NothingOverruns(durations, interval);
      assert durations[0..] == durations && forall i, j :: 0 <= i <= j <= 0 ==> durations[i..j] == durations[0..];
    } else {
      var init := durations[..|durations| - 1];
      DriftIsExcess(init, interval, maxDrift);
      hide Bearable, GreatestEnding;
      var lag := LagAfter(init, interval, maxDrift);
      if lag.abandoned == 0 {
        GreatestNext(durations, interval, lag.drift);
        BearableNext(durations, interval, maxDrift, Max(0, lag.drift + durations[|durations| - 1] - interval));
      } else {
        BearableBefore(durations, interval, maxDrift);
      }
    }
  }

  lemma BearableBefore(durations: seq<nat>, interval: nat, maxDrift: nat)
    requires durations != []
    ensures Bearable(durations, interval, maxDrift) ==> Bearable(durations[..|durations| - 1], interval, maxDrift)
  {
    hide Overrun;
    var n, init := |durations|, durations[..|durations| - 1];
    assert forall i, j :: 0 <= i <= j <= n - 1 ==> init[i..j] == durations[i..j];
  }

  /** When a tick makes a run unbearable, all of the greatest overrun is abandoned and no drift is left. */
  lemma GivingUpLeavesNothing(durations: seq<nat>, interval: nat, maxDrift: nat)
    requires durations != [] && Bearable(durations[..|durations| - 1], interval, maxDrift)
    requires !Bearable(durations, interval, maxDrift)
    ensures var lag := LagAfter(durations, interval, maxDrift);
            lag.drift == 0 && GreatestEnding(durations, interval, lag.abandoned)
  {
    hide Bearable, GreatestEnding;
    var init := durations[..|durations| - 1];
    DriftIsExcess(init, interval, maxDrift);
    var lag := LagAfter(init, interval, maxDrift);
    GreatestNext(durations, interval, lag.drift);
    BearableNext(durations, interval, maxDrift, Max(0, lag.drift + durations[|durations| - 1] - interval));
  }

  /** A loop without drift goes on like one that has just started. */
  lemma {:induction false} GoesOnAfresh(a: seq<nat>, b: seq<nat>, interval: nat, maxDrift: nat)
    requires LagAfter(a, interval, maxDrift).drift == 0
    ensures var first, second := LagAfter(a, interval, maxDrift), LagAfter(b, interval, maxDrift);
            LagAfter(a + b, interval, maxDrift) == Lag(second.drift, first.abandoned + second.abandoned)
  {
    if b == [] {
      assert a + b == a;
    } else {
      var init := b[..|b| - 1];
      assert (a + b)[..|a + b| - 1] == a + init;
      GoesOnAfresh(a, init, interval, maxDrift);
    }
  }

  /** When the tick after the first k ones starts, for a loop that starts at `base`. */
  function TickTime(base: nat, durations: seq<nat>, k: nat, interval: nat, maxDrift: nat): nat
    requires k <= |durations|
  {
    var lag := LagAfter(durations[..k], interval, maxDrift);
    base + k * interval + lag.drift + lag.abandoned
  }

  lemma TickForward(base: nat, durations: seq<nat>, k: nat, interval: nat, maxDrift: nat)
    requires k < |durations|
    ensures TickTime(base, durations, k, interval, maxDrift) <= TickTime(base, durations, k + 1, interval, maxDrift)
  {
    assert durations[..k + 1][..k] == durations[..k];
    assert (k + 1) * interval == k * interval + interval;
  }

  lemma {:induction false} TicksForward(base: nat, durations: seq<nat>, j: nat, k: nat, interval: nat, maxDrift: nat)
    requires j <= k <= |durations|
    ensures TickTime(base, durations, j, interval, maxDrift) <= TickTime(base, durations, k, interval, maxDrift)
    decreases k - j
  {
    if j < k {
      TickForward(base, durations, j, interval, maxDrift);
      TicksForward(base, durations, j + 1, k, interval, maxDrift);
    }
  }

  /** Drift stays within its bound and what was given up only grows. */
  lemma {:induction false} AbandonedGrows(durations: seq<nat>, j: nat, interval: nat, maxDrift: nat)
    requires j <= |durations|
    ensures LagAfter(durations[..j], interval, maxDrift).drift <= maxDrift
    ensures LagAfter(durations[..j], interval, maxDrift).abandoned <= LagAfter(durations, interval, maxDrift).abandoned
  {
    if j < |durations| {
      var init := durations[..|durations| - 1];
      assert init[..j] == durations[..j];
      AbandonedGrows(init, j, interval, maxDrift);
    } else {
      assert durations[..j] == durations;
      if durations != [] {
        var init := durations[..|durations| - 1];
        assert init[..|init|] == init;
        AbandonedGrows(init, |init|, interval, maxDrift);
      }
    }
  }
}
