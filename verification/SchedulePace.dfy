/** The tick loop keeps the pace that event expiry relies on. */
module SchedulePace {
  import opened Scheduler
  import D = EventDelivery

  const SECOND := 1000

  /** One run of the tick loop with a step of one second: the number of its first tick, the clock in
      milliseconds at that tick, and how long each tick's work took. */
  datatype Loop = Loop(first: nat, base: nat, durations: seq<nat>, maxDrift: nat)

  /** The clock at which tick k of the loop starts, in milliseconds. */
  function Starts(l: Loop, k: nat): nat
    requires k <= |l.durations|
  {
    TickTime(l.base, l.durations, k, SECOND, l.maxDrift)
  }

  /** When the work of tick k is done. */
  function Ends(l: Loop, k: nat): nat
    requires k <= |l.durations|
  {
    Starts(l, k) + if k < |l.durations| then l.durations[k] else 0
  }

  /** Over any 2 * m ticks, the work of the last one included, the loop falls behind by m seconds at most. */
  ghost predicate KeepsUp(l: Loop, m: nat) {
    forall i, j :: 0 <= i <= j <= |l.durations| && j - i <= 2 * m ==>
                     Ends(l, j) <= Starts(l, i) + (j - i) * SECOND + m * SECOND
  }

  /** The first of the ticks up to k that starts at time x or later. */
  function FirstFrom(l: Loop, x: nat, k: nat): (i: nat)
    requires k <= |l.durations| && Starts(l, k) >= x
    ensures i <= k && Starts(l, i) >= x && (i > 0 ==> Starts(l, i - 1) < x)
  {
    if k == 0 || Starts(l, k - 1) < x then k else FirstFrom(l, x, k - 1)
  }

  lemma EndsApart(l: Loop, i: nat, j: nat, m: nat)
    requires KeepsUp(l, m) && i <= j <= |l.durations| && j - i <= 2 * m
    ensures Starts(l, j) <= Ends(l, j) <= Starts(l, i) + (j - i) * SECOND + m * SECOND
  {
  }

  lemma StartOf(l: Loop)
    ensures Starts(l, 0) == l.base
  {
    assert l.durations[..0] == [];
  }

  /** The tick at which a query that fires every `splayed` ticks first fires from clock x on. */
  function FiringFrom(l: Loop, splayed: nat, x: nat): nat
    requires splayed >= 1 && Starts(l, |l.durations|) >= x * SECOND
  {
    var i := FirstFrom(l, x * SECOND, |l.durations|);
    i + NextFiring(l.first + i, splayed)
  }

  /** A query that fires at least every 2 * m ticks has a tick to itself in every stretch of 3 * m seconds, its
      work included, as long as the loop keeps up. */
  lemma FiresInStretch(l: Loop, splayed: nat, m: nat, x: nat)
    requires 1 <= splayed <= 2 * m && KeepsUp(l, m)
    requires l.base <= x * SECOND && Starts(l, |l.durations|) >= (x + 3 * m) * SECOND
    ensures var c := FiringFrom(l, splayed, x);
            && c <= |l.durations| && Fires(l.first + c, splayed)
            && x * SECOND <= Starts(l, c) <= Ends(l, c) < (x + 3 * m) * SECOND
  {
    hide Starts, Ends, KeepsUp, Fires, NextFiring;
    StartOf(l);
    var i := FirstFrom(l, x * SECOND, |l.durations|);
    var before := if i > 0 then i - 1 else 0;
    var c := FiringFrom(l, splayed, x);
    NextFires(l.first + i, splayed);
    if c > |l.durations| {
      EndsApart(l, before, |l.durations|, m);
    } else {
      EndsApart(l, before, c, m);
      StartsForward(l, i, c);
    }
  }

  lemma StartsForward(l: Loop, i: nat, c: nat)
    requires i <= c <= |l.durations|
    ensures Starts(l, i) <= Starts(l, c)
  {
    TicksForward(l.base, l.durations, i, c, SECOND, l.maxDrift);
  }

  /** The query read at some time during the work of tick k, whatever else the tick had to do. */
  ghost predicate RanDuring(clocks: set<nat>, l: Loop, k: nat)
    requires k <= |l.durations|
  {
    exists c :: c in clocks && Starts(l, k) / SECOND <= c <= Ends(l, k) / SECOND
  }

  predicate WithinRun(w: D.World, l: Loop, k: nat)
    requires k <= |l.durations|
  {
    w.start <= Starts(l, k) / SECOND && Ends(l, k) / SECOND < w.clock
  }

  /** At every tick that fires and whose work lies between the configuration update and now, the query ran. */
  ghost predicate RanWhenDue(w: D.World, l: Loop, q: string, splayed: nat) {
    forall k :: 0 <= k <= |l.durations| && Fires(l.first + k, splayed) && WithinRun(w, l, k) ==>
                  RanDuring(D.RunClocks(w, q), l, k)
  }

  /** A schedule whose splayed intervals are at most twice the configured ones, run by a loop that was running at
      the configuration update and falls behind by at most the largest interval within twice as many
      ticks, is fair to the event store. */
  lemma SplayedScheduleIsFair(w: D.World, l: Loop, interval: map<string, nat>, splayed: map<string, nat>)
    requires forall q :: q in w.scheduled ==>
               && q in interval && q in splayed && RanWhenDue(w, l, q, splayed[q])
               && 1 <= splayed[q] <= 2 * interval[q] && interval[q] <= w.maxInterval
    requires l.base <= w.start * SECOND && w.clock * SECOND <= Starts(l, |l.durations|) && KeepsUp(l, w.maxInterval)
    ensures D.Fair(w)
  {
    hide Starts, Ends, KeepsUp, Fires, FiringFrom;
    var m := w.maxInterval;
    forall q, x | q in w.scheduled && w.start <= x && x + 3 * m <= w.clock
      ensures D.RanWithin(D.RunClocks(w, q), x, 3 * m)
    {
      FiresInStretch(l, splayed[q], m, x);
      var k := FiringFrom(l, splayed[q], x);
      assert RanDuring(D.RunClocks(w, q), l, k);
      var c :| c in D.RunClocks(w, q) && Starts(l, k) / SECOND <= c <= Ends(l, k) / SECOND;
    }
  }

  /** A loop that never gives up on its drift keeps up, if the bound on drift and the work of any tick are within
      m seconds together. */
  lemma NoneAbandonedKeepsUp(l: Loop, m: nat)
    requires LagAfter(l.durations, SECOND, l.maxDrift).abandoned == 0 && l.maxDrift <= m * SECOND
    requires forall k :: 0 <= k < |l.durations| ==> l.maxDrift + l.durations[k] <= m * SECOND
    ensures KeepsUp(l, m)
  {
    hide LagAfter;
    forall i, j | 0 <= i <= j <= |l.durations|
      ensures Ends(l, j) <= Starts(l, i) + (j - i) * SECOND + m * SECOND
    {
      AbandonedGrows(l.durations, j, SECOND, l.maxDrift);
    }
  }
}
