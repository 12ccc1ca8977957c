/** Whole runs of the daemon: batches arrive, scheduled queries read, the configuration changes,
    the process restarts. Every query sees every event once, and none expires unseen. */
module EventDelivery {
  import opened EventKeys
  import opened EventModel
  import opened EventInvariant
  import opened EventEviction
  import opened EventReads
  import opened EventDisorder

  /** The store together with the history of the run so far. */
  datatype World = World(
    s: State,
    clock: nat,
    lastRun: nat,                     // clock of the latest run of any query, 0 before the first
    lastTime: nat,                    // latest event time
    added: seq<nat>,                  // ids of all events ever added, in order
    delivered: map<string, seq<nat>>, // ids each query has received, in order
    runs: map<string, set<nat>>,      // clocks at which each query ran
    configured: bool,
    scheduled: set<string>,           // the queries that read this subscriber
    maxInterval: nat,
    start: nat,                       // clock of the last configuration update
    overflowed: bool)                 // the buffer exceeded its limit since the process started

  datatype Step =
    | Add(rows: seq<string>, time: nat, now: nat)
    | Run(query: string, now: nat)
    | Peek(constrained: bool, from: nat, to: nat, now: nat)  // a read by no scheduled query
    | Reconfigure(names: set<string>, maxInterval: nat, now: nat)
    | Reboot(now: nat)

  function Initial(): World {
    World(Empty(), 0, 0, 0, [], map[], map[], false, {}, 0, 0, false)
  }

  predicate FlagsOk(flags: Flags) {
    flags.optimize && flags.max <= WORD
  }

  /** What the environment guarantees of a step: the clock does not go back and is never smaller
      than the expiry; an event is at most one second older than the latest read and not older
      than the event before it; only scheduled queries run, after a configuration update. */
  predicate Enabled(w: World, step: Step, flags: Flags) {
    && w.clock <= step.now < WORD
    && match step
       case Add(rows, time, now) =>
         rows != [] && 1 <= time <= now && w.lastTime <= time && w.lastRun <= time + 1 && Top(w.s) + |rows| < EID_BOUND
       case Run(q, now) =>
         w.configured && q in w.scheduled && 1 <= now && EffectiveExpiry(w.s, flags) <= now
       case Peek(constrained, from, to, now) =>
         w.configured && 1 <= now && EffectiveExpiry(w.s, flags) <= now && (!constrained ==> from == to == 0)
       case Reconfigure(names, maxInterval, now) => names != {} && "" !in names
       case Reboot(now) => w.s.eidKey < EID_BOUND
  }

  /** The state in which a read without a query name calls `get`: with time constraints the watermark fields
      stay as they are. */
  function PeekBase(s: State, constrained: bool, now: nat): State {
    if constrained then s else LoadMark(s, "", now)
  }

  function Received(w: World, q: string): seq<nat> {
    if q in w.delivered then w.delivered[q] else []
  }

  function RunClocks(w: World, q: string): set<nat> {
    if q in w.runs then w.runs[q] else {}
  }

  function Next(w: World, step: Step, flags: Flags): World
    requires FlagsOk(flags) && Enabled(w, step, flags)
  {
    match step
    case Add(rows, time, now) =>
      w.(s := AddBatch(w.s, flags, rows, time), clock := now, lastTime := time,
         added := w.added + EidRange(FirstEid(w.s), |rows|), overflowed := w.overflowed || |w.s.data| > flags.max)
    case Run(q, now) =>
      w.(s := RunState(w.s, flags, q, now), clock := now, lastRun := now,
         delivered := w.delivered[q := Received(w, q) + RunRows(w.s, flags, q, now)],
         runs := w.runs[q := RunClocks(w, q) + {now}])
    case Peek(constrained, from, to, now) =>
      w.(s := Get(PeekBase(w.s, constrained, now), flags, "", from, to, now), clock := now)
    case Reconfigure(names, maxInterval, now) =>
      w.(s := Configure(w.s, maxInterval, |names|), clock := now, configured := true, scheduled := names,
         maxInterval := maxInterval, start := now)
    case Reboot(now) =>
      w.(s := ExpireCheck(Restart(w.s), flags.max), clock := now, configured := false,
         overflowed := |w.s.data| > flags.max)
  }

  // ----- what a watermark run returns -----

  /** The state in which a run reads, after its expiry. */
  function ReadState(s: State, q: string, now: nat): State {
    Purged(LoadMark(s, q, now))
  }

  lemma PurgedIndex(s: State)
    requires Inv(s)
    ensures forall b :: b in Purged(s).records ==> b in s.index
    ensures Lists(Purged(s).records) && Ordered(Purged(s).records)
  {
    DropBinsInv(s, ExpiredBins(s));
  }

  /** A read without upper bound gathers, in id order, what is left of the bins from `start` on. */
  lemma OpenReadFetches(l: State, flags: Flags, start: nat)
    requires Inv(l)
    ensures var t, recs := Purged(l), Fetched(l, flags, start, 0);
            && EidsIncreasing(recs)
            && (forall r :: r in recs <==> In(t.records, r) && r.time / 60 >= start / 60 &&
                                           !Skipped(r, flags.optimize, l.optimizeTime, l.optimizeEid))
  {
    ExpiryExact(l, true);
    PurgedIndex(l);
    assert Distinct(l.index);
    hide Inv, Purged, Expire, Sort, SelectedBins, Skipped, Gather, Ordered, Lists;
    var t := Purged(l);
    var selected := SelectedBins(l.index, start, 0);
    SelectedAre(l.index, start, 0);
    SortSorts(selected);
    GatherAre(t.records, Sort(selected), flags.optimize, l.optimizeTime, l.optimizeEid);
    GatherIncreasing(t.records, Sort(selected), flags.optimize, l.optimizeTime, l.optimizeEid);
  }

  lemma RunFetches(s: State, flags: Flags, q: string, now: nat)
    requires Inv(s) && FlagsOk(flags) && 1 <= now < WORD
    requires forall r :: In(s.records, r) ==> r.time <= now
    ensures var l, t := LoadMark(s, q, now), ReadState(s, q, now);
            var recs := Fetched(l, flags, MarkStart(s, q), 0);
            && EidsIncreasing(recs)
            && (forall r :: r in recs <==>
                  In(t.records, r) && r.time / 60 >= MarkStart(s, q) / 60 && r.eid > MarkEid(s, q))
  {
    var l := LoadMark(s, q, now);
    LoadMarkInv(s, q, now);
    PurgedFrame(l);
    hide Inv, Purged, Fetched, In;
    OpenReadFetches(l, flags, MarkStart(s, q));
    assert l.optimizeTime == now - 1;
  }

  function NewMarkEid(s: State, flags: Flags, q: string, now: nat): nat {
    var recs := Fetched(LoadMark(s, q, now), flags, MarkStart(s, q), 0);
    if recs != [] then recs[|recs| - 1].eid else MarkEid(s, q)
  }

  function NewExpireTime(s: State, flags: Flags, now: nat): nat
    requires EffectiveExpiry(s, flags) <= now
  {
    if flags.expiry > 0 then Floor60(now - EffectiveExpiry(s, flags)) else s.expireTime
  }

  /** The state after a run, in terms of what the run read. */
  lemma RunShape(s: State, flags: Flags, q: string, now: nat)
    requires Inv(s) && FlagsOk(flags) && q != "" && 1 <= now < WORD && EffectiveExpiry(s, flags) <= now
    ensures var m := NewMarkEid(s, flags, q, now);
            RunState(s, flags, q, now) ==
            ReadState(s, q, now).(optimizeEid := m, expireTime := NewExpireTime(s, flags, now),
                                  marks := s.marks[q := Mark(now - 1, m)])
  {
    hide Inv, Expire, Fetched, Purged;
    LoadMarkInv(s, q, now);
    ExpiryExact(LoadMark(s, q, now), true);
    PurgedFrame(LoadMark(s, q, now));
  }

  lemma RunInv(s: State, flags: Flags, q: string, now: nat)
    requires Inv(s) && FlagsOk(flags) && q != "" && 1 <= now < WORD && EffectiveExpiry(s, flags) <= now
    ensures Inv(ReadState(s, q, now)) && Inv(RunState(s, flags, q, now))
  {
    hide Inv, Fetched, Expire, Purged, RunState, NewMarkEid;
    InvNumbers(s);
    RunShape(s, flags, q, now);
    LoadMarkInv(s, q, now);
    ExpiryExact(LoadMark(s, q, now), true);
    var m := NewMarkEid(s, flags, q, now);
    InvIgnores(ReadState(s, q, now), m, NewExpireTime(s, flags, now), s.marks[q := Mark(now - 1, m)]);
  }

  ghost predicate MarkCovers(s: State, q: string) {
    forall r :: In(s.records, r) && r.eid > MarkEid(s, q) ==> r.time >= MarkStart(s, q)
  }

  lemma RunMark(s: State, flags: Flags, q: string, now: nat)
    requires Inv(s) && FlagsOk(flags) && 1 <= now < WORD && MarkCovers(s, q)
    requires forall r :: In(s.records, r) ==> r.time <= now
    ensures var t, m := ReadState(s, q, now), NewMarkEid(s, flags, q, now);
            && MarkEid(s, q) <= m
            && (m <= Top(s) || m == MarkEid(s, q))
            && (forall r :: In(t.records, r) ==> r.eid <= m)
  {
    hide Inv, Purged, Fetched, In, MarkCovers, MarkEid;
    var l, t := LoadMark(s, q, now), ReadState(s, q, now);
    IdBounds(s);
    RunFetches(s, flags, q, now);
    PurgedFrame(l);
    var recs := Fetched(l, flags, MarkStart(s, q), 0);
    assert recs != [] ==> recs[|recs| - 1] in recs;
    forall r | In(t.records, r)
      ensures r.eid <= NewMarkEid(s, flags, q, now)
    {
      if r.eid > MarkEid(s, q) {
        Covered(s, q, r);
        assert r in recs;
      }
    }
  }

  lemma IdBounds(s: State)
    requires Inv(s)
    ensures forall r :: In(s.records, r) ==> r.eid <= Top(s)
  {
  }

  lemma Covered(s: State, q: string, r: Record)
    requires MarkCovers(s, q) && In(s.records, r) && r.eid > MarkEid(s, q)
    ensures r.time >= MarkStart(s, q)
  {
  }

  lemma RunReads(s: State, flags: Flags, q: string, now: nat, e: nat)
    requires Inv(s) && FlagsOk(flags) && 1 <= now < WORD
    ensures var t := ReadState(s, q, now);
            e in RunRows(s, flags, q, now) <==>
            e in t.data && t.data[e].time >= MarkStart(s, q) && (t.data[e].time > now || e > MarkEid(s, q))
  {
    hide Inv, Sound, RunRows, Expire, Purged;
    LoadMarkInv(s, q, now);
    ExpiryExact(LoadMark(s, q, now), true);
    InvIsSound(s);
    RunReturns(s, flags, q, now, e);
  }

  /** A run returns, in id order, exactly the unexpired rows above the query's watermark. */
  lemma RunDelivers(s: State, flags: Flags, q: string, now: nat)
    requires Inv(s) && FlagsOk(flags) && 1 <= now < WORD && MarkCovers(s, q)
    requires forall r :: In(s.records, r) ==> r.time <= now
    ensures var rows, t := RunRows(s, flags, q, now), ReadState(s, q, now);
            Increasing(rows) && forall e :: e in rows <==> e in t.data && e > MarkEid(s, q)
  {
    hide Fetched, Expire, Purged, Emit, Ordered, Lists;
    var l, t := LoadMark(s, q, now), ReadState(s, q, now);
    OpenReadFetches(l, flags, MarkStart(s, q));
    EmitIncreasing(Expire(l, true).data, Fetched(l, flags, MarkStart(s, q), 0), MarkStart(s, q), 0);
    ReadStateFrame(s, q, now);
    forall e: nat
      ensures e in RunRows(s, flags, q, now) <==> e in t.data && e > MarkEid(s, q)
    {
      RunReads(s, flags, q, now, e);
      if e in t.data {
        assert In(s.records, Record(e, s.data[e].time));
      }
    }
  }

  // ----- the invariant of a run -----

  /** What a query has received agrees with its watermark, and nothing it has not received is older
      than its latest read. */
  ghost predicate Tracked(s: State, m: Mark, got: seq<nat>, runs: set<nat>, added: seq<nat>, lastRun: nat) {
    && Increasing(got)
    && (forall e :: e in got ==> e in added && e <= m.eid)
    && m.eid <= Top(s) && m.time + 1 <= lastRun
    && (forall r :: In(s.records, r) && r.eid > m.eid ==> r.time >= m.time)
    && (forall e :: e in s.data && e <= m.eid ==> e in got)
    && (forall c :: c in runs ==> c <= lastRun)
    && (forall e, c :: e in s.data && c in runs && e > m.eid ==> c <= s.data[e].time + 1)
  }

  ghost predicate AllTracked(s: State, delivered: map<string, seq<nat>>, runs: map<string, set<nat>>,
                             added: seq<nat>, lastRun: nat) {
    && s.marks.Keys == delivered.Keys == runs.Keys
    && "" !in s.marks
    && forall q :: q in s.marks ==> Tracked(s, s.marks[q], delivered[q], runs[q], added, lastRun)
  }

  ghost predicate TimesUpTo(records: map<nat, seq<Record>>, bound: nat) {
    forall r :: In(records, r) ==> r.time <= bound
  }

  ghost predicate IdLog(added: seq<nat>, data: map<nat, Event>, top: nat) {
    && Increasing(added)
    && (forall e :: e in added ==> 1 <= e <= top)
    && (forall e :: e in data ==> e in added)
  }

  /** Every query that counts as executed ran since the configuration update. */
  ghost predicate RanSince(queries: set<string>, runs: map<string, set<nat>>, start: nat) {
    forall q :: q in queries ==> q in runs && exists c :: c in runs[q] && c >= start
  }

  /** The expiry time lies before the configuration update or more than three intervals behind
      the clock. */
  predicate ExpiryBehind(w: World) {
    w.s.expireTime == 0 || w.s.expireTime < w.start || w.s.expireTime + 3 * w.maxInterval + 1 <= w.clock
  }

  predicate Settled(w: World) {
    && "" !in w.scheduled && w.s.queryCount == |w.scheduled| && w.s.queries <= w.scheduled && w.start <= w.clock
    && w.s.minExpiration >= 3 * w.maxInterval + 1
    && (w.overflowed || ExpiryBehind(w))
  }

  ghost predicate WorldInv(w: World) {
    && Inv(w.s)
    && AllTracked(w.s, w.delivered, w.runs, w.added, w.lastRun)
    && TimesUpTo(w.s.records, w.lastTime)
    && IdLog(w.added, w.s.data, Top(w.s))
    && w.lastRun <= w.clock && w.lastTime <= w.clock && w.s.expireTime <= w.clock
    && (w.overflowed || w.s.expireTime == 0 || w.s.expireTime < w.clock)
    && (w.configured ==> Settled(w) && RanSince(w.s.queries, w.runs, w.start))
  }

  lemma InitialInv()
    ensures WorldInv(Initial())
  {
  }

  // ----- each step keeps it -----

  /** Losing rows and records, gaining ids and time, keeps a query tracked. */
  lemma TrackedShrinks(s: State, t: State, m: Mark, got: seq<nat>, runs: set<nat>, added: seq<nat>, lastRun: nat, lastRun': nat)
    requires Tracked(s, m, got, runs, added, lastRun) && lastRun <= lastRun' && Top(s) <= Top(t)
    requires forall r :: In(t.records, r) ==> In(s.records, r)
    requires forall e :: e in t.data ==> e in s.data && t.data[e] == s.data[e]
    ensures Tracked(t, m, got, runs, added, lastRun')
  {
  }

  lemma AllTrackedShrinks(s: State, t: State, delivered: map<string, seq<nat>>, runs: map<string, set<nat>>,
                          added: seq<nat>, lastRun: nat)
    requires AllTracked(s, delivered, runs, added, lastRun) && t.marks == s.marks && Top(s) <= Top(t)
    requires forall r :: In(t.records, r) ==> In(s.records, r)
    requires forall e :: e in t.data ==> e in s.data && t.data[e] == s.data[e]
    ensures AllTracked(t, delivered, runs, added, lastRun)
  {
    hide Tracked, In;
    forall q | q in t.marks
      ensures Tracked(t, t.marks[q], delivered[q], runs[q], added, lastRun)
    {
      TrackedShrinks(s, t, s.marks[q], delivered[q], runs[q], added, lastRun, lastRun);
    }
  }

  // adding

  ghost predicate Appends(s: State, t: State, first: nat, n: nat, time: nat) {
    && (forall r :: In(t.records, r) ==> In(s.records, r) || (r.time == time && r.eid >= first))
    && (forall e :: e in t.data ==> (e in s.data && t.data[e] == s.data[e]) ||
                                    (first <= e < first + n && t.data[e].time == time))
  }

  lemma TrackedAdd(s: State, t: State, m: Mark, got: seq<nat>, runs: set<nat>, added: seq<nat>, added': seq<nat>, lastRun: nat,
                   first: nat, n: nat, time: nat)
    requires Tracked(s, m, got, runs, added, lastRun) && Top(s) <= Top(t) && Top(s) < first && lastRun <= time + 1
    requires forall e :: e in added ==> e in added'
    requires Appends(s, t, first, n, time)
    ensures Tracked(t, m, got, runs, added', lastRun)
  {
  }

  lemma AllTrackedAdd(s: State, t: State, delivered: map<string, seq<nat>>, runs: map<string, set<nat>>,
                      added: seq<nat>, added': seq<nat>, lastRun: nat, first: nat, n: nat, time: nat)
    requires AllTracked(s, delivered, runs, added, lastRun) && t.marks == s.marks
    requires Top(s) <= Top(t) && Top(s) < first && lastRun <= time + 1
    requires forall e :: e in added ==> e in added'
    requires Appends(s, t, first, n, time)
    ensures AllTracked(t, delivered, runs, added', lastRun)
  {
    hide Tracked, Appends, Top;
    forall q | q in t.marks
      ensures Tracked(t, t.marks[q], delivered[q], runs[q], added', lastRun)
    {
      TrackedAdd(s, t, s.marks[q], delivered[q], runs[q], added, added', lastRun, first, n, time);
    }
  }

  /** The facts about an added batch that the history needs. */
  lemma AddFacts(s: State, flags: Flags, rows: seq<string>, time: nat, first: nat)
    requires Inv(s) && flags.max <= WORD && rows != [] && Top(s) + |rows| < EID_BOUND && first == Top(s) + 1
    requires time >= 1 && TimesUpTo(s.records, time)
    ensures var t := AddBatch(s, flags, rows, time);
            && Inv(t) && Top(t) == Top(s) + |rows| && Appends(s, t, first, |rows|, time)
            && t.marks == s.marks && t.queries == s.queries && t.queryCount == s.queryCount
            && t.minExpiration == s.minExpiration && t.expireTime == Issued(s, flags, |rows|).expireTime
  {
    hide Inv, AddBatch, Issued, In;
    AddBatchInv(s, flags, rows, time);
    IssuedFrame(s, flags, |rows|);
    StoredRows(Issued(s, flags, |rows|).data, first, rows, time);
  }

  lemma AppendIds(added: seq<nat>, data: map<nat, Event>, top: nat, n: nat)
    requires IdLog(added, data, top)
    ensures var after := added + EidRange(top + 1, n);
            && Increasing(after)
            && (forall e :: e in added ==> e in after)
            && (forall e :: top < e <= top + n ==> e in after)
            && (forall e :: e in after ==> 1 <= e <= top + n)
  {
    var ids := EidRange(top + 1, n);
    forall i | 0 <= i < |added|
      ensures added[i] <= top
    {
      assert added[i] in added;
    }
    forall e | top < e <= top + n
      ensures e in ids
    {
      assert ids[e - top - 1] == e;
    }
  }

  lemma AppendsBound(s: State, t: State, first: nat, n: nat, time: nat)
    requires TimesUpTo(s.records, time) && Appends(s, t, first, n, time)
    ensures TimesUpTo(t.records, time)
  {
  }

  lemma AppendsLog(s: State, t: State, added: seq<nat>, top: nat, n: nat, time: nat)
    requires IdLog(added, s.data, top) && Appends(s, t, top + 1, n, time)
    ensures IdLog(added + EidRange(top + 1, n), t.data, top + n)
  {
    AppendIds(added, s.data, top, n);
  }

  lemma BoundGrows(records: map<nat, seq<Record>>, bound: nat, bound': nat)
    requires TimesUpTo(records, bound) && bound <= bound'
    ensures TimesUpTo(records, bound')
    ensures forall r :: In(records, r) ==> r.time <= bound'
  {
  }

  lemma FirstIsNext(s: State)
    ensures FirstEid(s) == Top(s) + 1
  {
  }

  lemma AddKeeps(w: World, step: Step, flags: Flags)
    requires FlagsOk(flags) && WorldInv(w) && step.Add? && Enabled(w, step, flags)
    ensures WorldInv(Next(w, step, flags))
  {
    hide Inv, AddBatch, Issued, AllTracked, Appends, TimesUpTo, IdLog, RanSince, EidRange, FirstEid, Top, RunState, RunRows,
         EffectiveExpiry;
    var Add(rows, time, now) := step;
    var n := Next(w, step, flags);
    var top := Top(w.s);
    FirstIsNext(w.s);
    BoundGrows(w.s.records, w.lastTime, time);
    BoundGrows(w.s.records, w.lastTime, w.clock);
    AddFacts(w.s, flags, rows, time, top + 1);
    IssuedTime(w.s, flags, |rows|, w.clock);
    AppendIds(w.added, w.s.data, top, |rows|);
    AppendsBound(w.s, n.s, top + 1, |rows|, time);
    AppendsLog(w.s, n.s, w.added, top, |rows|, time);
    AllTrackedAdd(w.s, n.s, w.delivered, w.runs, w.added, n.added, w.lastRun, top + 1, |rows|, time);
  }

  // running a query

  lemma ReadStateFrame(s: State, q: string, now: nat)
    ensures var t := ReadState(s, q, now);
            && (forall r :: In(t.records, r) ==> In(s.records, r))
            && (forall e :: e in t.data ==> e in s.data && t.data[e] == s.data[e])
            && t.marks == s.marks && t.queryCount == s.queryCount && t.minExpiration == s.minExpiration
            && t.queries == (if q == "" then s.queries else s.queries + {q}) && Top(t) == Top(s)
  {
    PurgedFrame(LoadMark(s, q, now));
  }

  lemma ConcatIds(a: seq<nat>, b: seq<nat>, m: nat)
    requires Increasing(a) && Increasing(b)
    requires (forall e :: e in a ==> e <= m) && (forall e :: e in b ==> e > m)
    ensures Increasing(a + b)
  {
    forall i, j | 0 <= i < |a| && 0 <= j < |b|
      ensures a[i] < b[j]
    {
      assert a[i] in a && b[j] in b;
    }
  }

  /** After its run a query has received every row that is left. */
  lemma TrackedRun(t: State, m: nat, m': nat, got: seq<nat>, rows: seq<nat>, runs: set<nat>, added: seq<nat>, now: nat)
    requires Increasing(got) && (forall e :: e in got ==> e in added && e <= m)
    requires forall e :: e in t.data && e <= m ==> e in got
    requires Increasing(rows) && forall e :: e in rows <==> e in t.data && e > m
    requires m <= m' <= Top(t) && 1 <= now && (forall r :: In(t.records, r) ==> r.eid <= m')
    requires RowsRecorded(t.data, t.records) && forall e :: e in t.data ==> e in added
    requires forall c :: c in runs ==> c <= now
    ensures Tracked(t, Mark(now - 1, m'), got + rows, runs + {now}, added, now)
    ensures forall e :: e in t.data ==> e in got + rows
  {
    ConcatIds(got, rows, m);
    forall e | e in t.data
      ensures e <= m'
    {
      assert In(t.records, Record(e, t.data[e].time));
    }
  }

  ghost predicate Knows(s: State, q: string, got: seq<nat>, runs: set<nat>, added: seq<nat>, lastRun: nat) {
    && Increasing(got) && (forall e :: e in got ==> e in added && e <= MarkEid(s, q))
    && MarkCovers(s, q) && (forall e :: e in s.data && e <= MarkEid(s, q) ==> e in got)
    && MarkEid(s, q) <= Top(s) && (forall c :: c in runs ==> c <= lastRun)
  }

  /** A query that has never run has received nothing and has no watermark. */
  lemma KnowsItsPast(w: World, q: string)
    requires WorldInv(w) && q != ""
    ensures Knows(w.s, q, Received(w, q), RunClocks(w, q), w.added, w.lastRun)
  {
    hide RanSince;
    if q !in w.s.marks {
      forall e | e in w.s.data
        ensures e >= 1
      {
        RowBounds(w.s, e);
      }
    }
  }

  lemma RunTracksReader(s: State, flags: Flags, q: string, now: nat, got: seq<nat>, runs: set<nat>, added: seq<nat>, lastRun: nat)
    requires Inv(s) && FlagsOk(flags) && q != "" && 1 <= now < WORD && EffectiveExpiry(s, flags) <= now
    requires Knows(s, q, got, runs, added, lastRun) && lastRun <= now
    requires TimesUpTo(s.records, now) && forall e :: e in s.data ==> e in added
    ensures var t, m, all := ReadState(s, q, now), NewMarkEid(s, flags, q, now), got + RunRows(s, flags, q, now);
            && Tracked(t, Mark(now - 1, m), all, runs + {now}, added, now)
            && (forall e :: e in t.data ==> e in all)
  {
    RunInv(s, flags, q, now);
    var t := ReadState(s, q, now);
    assert RowsRecorded(t.data, t.records);
    hide Inv, RunState, RunRows, NewMarkEid, ReadState, EffectiveExpiry, RowsRecorded, MarkCovers, MarkEid, In, Top;
    BoundGrows(s.records, now, now);
    RunMark(s, flags, q, now);
    RunDelivers(s, flags, q, now);
    ReadStateFrame(s, q, now);
    TrackedRun(t, MarkEid(s, q), NewMarkEid(s, flags, q, now), got, RunRows(s, flags, q, now), runs, added, now);
  }

  lemma TrackedIgnores(s: State, t: State, m: Mark, got: seq<nat>, runs: set<nat>, added: seq<nat>, lastRun: nat)
    requires Tracked(s, m, got, runs, added, lastRun)
    requires t.data == s.data && t.records == s.records && Top(t) == Top(s)
    ensures Tracked(t, m, got, runs, added, lastRun)
  {
  }

  lemma RunTracksAll(w: World, step: Step, flags: Flags)
    requires FlagsOk(flags) && WorldInv(w) && step.Run? && Enabled(w, step, flags)
    ensures var n := Next(w, step, flags);
            && AllTracked(n.s, n.delivered, n.runs, n.added, n.lastRun)
            && (forall e :: e in n.s.data ==> e in n.delivered[step.query])
  {
    hide Inv, RunState, RunRows, NewMarkEid, ReadState, EffectiveExpiry, TimesUpTo, RanSince, Tracked, Knows, Top, In;
    var Run(q, now) := step;
    var n, t := Next(w, step, flags), ReadState(w.s, q, now);
    RunShape(w.s, flags, q, now);
    ReadStateFrame(w.s, q, now);
    TopOf(t, n.s);
    KnowsItsPast(w, q);
    BoundGrows(w.s.records, w.lastTime, now);
    RunTracksReader(w.s, flags, q, now, Received(w, q), RunClocks(w, q), w.added, w.lastRun);
    forall p | p in n.s.marks
      ensures Tracked(n.s, n.s.marks[p], n.delivered[p], n.runs[p], n.added, n.lastRun)
    {
      if p != q {
        TrackedShrinks(w.s, t, w.s.marks[p], w.delivered[p], w.runs[p], w.added, w.lastRun, now);
      }
      TrackedIgnores(t, n.s, n.s.marks[p], n.delivered[p], n.runs[p], n.added, now);
    }
  }

  lemma TopOf(s: State, t: State)
    requires s.lastEid == t.lastEid && s.eidKey == t.eidKey
    ensures Top(s) == Top(t)
  {
  }

  lemma NewExpireTimeBehind(s: State, flags: Flags, now: nat)
    requires EffectiveExpiry(s, flags) <= now
    ensures flags.expiry == 0 ==> NewExpireTime(s, flags, now) == s.expireTime
    ensures flags.expiry > 0 ==> NewExpireTime(s, flags, now) + s.minExpiration <= now
  {
  }

  lemma RanSinceRun(queries: set<string>, runs: map<string, set<nat>>, start: nat, q: string, clocks: set<nat>, now: nat)
    requires RanSince(queries, runs, start) && now >= start && (q in runs ==> clocks == runs[q])
    ensures RanSince(queries + {q}, runs[q := clocks + {now}], start)
  {
    var after := runs[q := clocks + {now}];
    forall p | p in queries + {q}
      ensures p in after && exists c :: c in after[p] && c >= start
    {
      if p == q {
        assert now in after[p];
      }
    }
  }

  lemma ShrinkBounds(s: State, t: State, added: seq<nat>, bound: nat, top: nat)
    requires TimesUpTo(s.records, bound) && IdLog(added, s.data, top)
    requires forall r :: In(t.records, r) ==> In(s.records, r)
    requires forall e :: e in t.data ==> e in s.data && t.data[e] == s.data[e]
    ensures TimesUpTo(t.records, bound) && IdLog(added, t.data, top)
  {
  }

  lemma RunKeeps(w: World, step: Step, flags: Flags)
    requires FlagsOk(flags) && WorldInv(w) && step.Run? && Enabled(w, step, flags)
    ensures WorldInv(Next(w, step, flags))
  {
    hide Inv, RunState, RunRows, NewMarkEid, ReadState, AllTracked, TimesUpTo, IdLog, RanSince, Top, In, NewExpireTime,
         EffectiveExpiry;
    RunTracksAll(w, step, flags);
    var Run(q, now) := step;
    var n, t := Next(w, step, flags), ReadState(w.s, q, now);
    RunInv(w.s, flags, q, now);
    RunShape(w.s, flags, q, now);
    ReadStateFrame(w.s, q, now);
    TopOf(t, n.s);
    NewExpireTimeBehind(w.s, flags, now);
    RanSinceRun(w.s.queries, w.runs, w.start, q, RunClocks(w, q), now);
    ShrinkBounds(w.s, t, w.added, w.lastTime, Top(w.s));
  }

  // a read by no scheduled query

  lemma PeekShape(s: State, flags: Flags, constrained: bool, from: nat, to: nat, now: nat)
    requires Inv(s) && 1 <= now < WORD && EffectiveExpiry(s, flags) <= now
    ensures var t := Get(PeekBase(s, constrained, now), flags, "", from, to, now);
            && Inv(t) && Top(t) == Top(s)
            && (forall r :: In(t.records, r) ==> In(s.records, r))
            && (forall e :: e in t.data ==> e in s.data && t.data[e] == s.data[e])
            && t.marks == s.marks && t.queries == s.queries && t.queryCount == s.queryCount
            && t.minExpiration == s.minExpiration && t.expireTime == NewExpireTime(s, flags, now)
            && t.data == Purged(PeekBase(s, constrained, now)).data
  {
    hide Inv, Get, Purged, In, Floor60;
    var b := PeekBase(s, constrained, now);
    LoadMarkInv(s, "", now);
    NamelessGet(b, flags, from, to, now);
    PurgedFrame(b);
    PurgedData(b);
  }

  lemma NamelessGet(s: State, flags: Flags, from: nat, to: nat, now: nat)
    requires Inv(s) && 1 <= now < WORD && EffectiveExpiry(s, flags) <= now
    ensures var t := Get(s, flags, "", from, to, now);
            Inv(t) && t == Purged(s).(optimizeEid := t.optimizeEid, expireTime := NewExpireTime(s, flags, now))
  {
    hide Inv, Expire, Get, Purged, In;
    InvNumbers(s);
    ExpiryExact(s, true);
    PurgedFrame(s);
    GetShape(s, flags, "", from, to, now);
    var t := Get(s, flags, "", from, to, now);
    InvIgnores(Purged(s), t.optimizeEid, t.expireTime, t.marks);
  }

  lemma PurgedData(s: State)
    ensures forall e :: e in Purged(s).data ==> e in s.data && Purged(s).data[e] == s.data[e]
  {
  }

  lemma PeekKeeps(w: World, step: Step, flags: Flags)
    requires FlagsOk(flags) && WorldInv(w) && step.Peek? && Enabled(w, step, flags)
    ensures WorldInv(Next(w, step, flags))
  {
    hide Inv, Get, AllTracked, TimesUpTo, IdLog, RanSince, Top, In, NewExpireTime, EffectiveExpiry, Purged, RunState, RunRows,
         AddBatch, ExpireCheck;
    var Peek(constrained, from, to, now) := step;
    var n := Next(w, step, flags);
    PeekShape(w.s, flags, constrained, from, to, now);
    NewExpireTimeBehind(w.s, flags, now);
    ShrinkBounds(w.s, n.s, w.added, w.lastTime, Top(w.s));
    AllTrackedShrinks(w.s, n.s, w.delivered, w.runs, w.added, w.lastRun);
  }

  // configuration updates and restarts

  lemma ReconfigureKeeps(w: World, step: Step, flags: Flags)
    requires FlagsOk(flags) && WorldInv(w) && step.Reconfigure? && Enabled(w, step, flags)
    ensures WorldInv(Next(w, step, flags))
  {
    hide Inv, In, TimesUpTo, IdLog, Tracked, Top, RunState, RunRows, EffectiveExpiry, AddBatch, ExpireCheck;
    ConfigureInv(w.s, step.maxInterval, |step.names|);
    var n := Next(w, step, flags);
    TopOf(w.s, n.s);
    TopOf(n.s, w.s);
    forall q | q in n.s.marks
      ensures Tracked(n.s, n.s.marks[q], n.delivered[q], n.runs[q], n.added, n.lastRun)
    {
      TrackedIgnores(w.s, n.s, w.s.marks[q], w.delivered[q], w.runs[q], w.added, w.lastRun);
    }
  }

  lemma RebootKeeps(w: World, step: Step, flags: Flags)
    requires FlagsOk(flags) && WorldInv(w) && step.Reboot? && Enabled(w, step, flags)
    ensures WorldInv(Next(w, step, flags))
  {
    hide Inv, In, TimesUpTo, IdLog, AllTracked, Top, RunState, RunRows, EffectiveExpiry, AddBatch, ExpireCheck;
    var n, r := Next(w, step, flags), Restart(w.s);
    RestartInv(w.s);
    BoundGrows(w.s.records, w.lastTime, w.clock);
    ExpireCheckFrame(r, flags.max);
    ExpireCheckTime(r, flags.max, w.clock);
    CheckWithinLimit(r, flags.max);
    TopOf(r, n.s);
    ShrinkBounds(w.s, n.s, w.added, w.lastTime, Top(w.s));
    IdLogGrows(w.added, n.s.data, Top(w.s), Top(n.s));
    AllTrackedShrinks(w.s, n.s, w.delivered, w.runs, w.added, w.lastRun);
  }

  lemma IdLogGrows(added: seq<nat>, data: map<nat, Event>, top: nat, top': nat)
    requires IdLog(added, data, top) && top <= top'
    ensures IdLog(added, data, top')
  {
  }

  lemma StepKeeps(w: World, step: Step, flags: Flags)
    requires FlagsOk(flags) && WorldInv(w) && Enabled(w, step, flags)
    ensures WorldInv(Next(w, step, flags))
  {
    hide WorldInv, Enabled, Next;
    match step
    case Add(_, _, _) => AddKeeps(w, step, flags);
    case Run(_, _) => RunKeeps(w, step, flags);
    case Peek(_, _, _, _) => PeekKeeps(w, step, flags);
    case Reconfigure(_, _, _) => ReconfigureKeeps(w, step, flags);
    case Reboot(_) => RebootKeeps(w, step, flags);
  }

  // ----- whole runs -----

  predicate Possible(w: World, steps: seq<Step>, flags: Flags)
    requires FlagsOk(flags)
    decreases steps
  {
    steps == [] || (Enabled(w, steps[0], flags) && Possible(Next(w, steps[0], flags), steps[1..], flags))
  }

  function Exec(w: World, steps: seq<Step>, flags: Flags): World
    requires FlagsOk(flags) && Possible(w, steps, flags)
    decreases steps
  {
    if steps == [] then w else Exec(Next(w, steps[0], flags), steps[1..], flags)
  }

  lemma {:induction false} ExecKeeps(w: World, steps: seq<Step>, flags: Flags)
    requires FlagsOk(flags) && Possible(w, steps, flags) && WorldInv(w)
    ensures WorldInv(Exec(w, steps, flags))
    decreases steps
  {
    hide WorldInv, Enabled, Next;
    if steps != [] {
      StepKeeps(w, steps[0], flags);
      ExecKeeps(Next(w, steps[0], flags), steps[1..], flags);
    }
  }

  ghost predicate NothingLost(w: World) {
    forall e :: e in w.added ==> e in w.s.data
  }

  lemma DropLast(a: seq<nat>)
    requires Increasing(a) && a != []
    ensures var x, rest := a[|a| - 1], a[..|a| - 1];
            && x in a && Increasing(rest)
            && (forall e :: e in a ==> e <= x) && (forall e :: e in rest <==> e in a && e != x)
  {
    var x, rest := a[|a| - 1], a[..|a| - 1];
    assert a == rest + [x];
  }

  lemma FirstIn(a: seq<nat>)
    ensures a == [] || a[0] in a
  {
  }

  lemma {:induction false} SameIncreasing(a: seq<nat>, b: seq<nat>)
    requires Increasing(a) && Increasing(b) && forall e :: e in a <==> e in b
    ensures a == b
  {
    hide Increasing;
    FirstIn(a);
    FirstIn(b);
    if a != [] {
      LastsAgree(a, b);
      SameIncreasing(a[..|a| - 1], b[..|b| - 1]);
      assert a == a[..|a| - 1] + [a[|a| - 1]];
      assert b == b[..|b| - 1] + [b[|b| - 1]];
    }
  }

  lemma LastsAgree(a: seq<nat>, b: seq<nat>)
    requires Increasing(a) && Increasing(b) && (forall e :: e in a <==> e in b) && a != [] && b != []
    ensures a[|a| - 1] == b[|b| - 1] && Increasing(a[..|a| - 1]) && Increasing(b[..|b| - 1])
    ensures var x, y := a[..|a| - 1], b[..|b| - 1]; forall e :: e in x <==> e in y
  {
    hide Increasing;
    DropLast(a);
    DropLast(b);
  }

  /** Exactly-once delivery, over every run of batches, reads, configuration updates and restarts:
      a query receives ids in increasing order (so none twice), only ids that were added, and after
      its run every row that is left. If nothing expired or overflowed it has received exactly the
      events added so far, each once and in order. */
  lemma ExactlyOnce(steps: seq<Step>, flags: Flags, q: string, now: nat)
    requires FlagsOk(flags) && Possible(Initial(), steps, flags)
    requires Enabled(Exec(Initial(), steps, flags), Run(q, now), flags)
    ensures var n := Next(Exec(Initial(), steps, flags), Run(q, now), flags);
            && q in n.delivered && Increasing(n.delivered[q])
            && (forall e :: e in n.delivered[q] ==> e in n.added)
            && (forall e :: e in n.s.data ==> e in n.delivered[q])
            && (NothingLost(n) ==> n.delivered[q] == n.added)
  {
    InitialInv();
    ExecKeeps(Initial(), steps, flags);
    var w := Exec(Initial(), steps, flags);
    hide Exec, Possible, Inv, RunState, RunRows, Tracked, In;
    RunTracksAll(w, Run(q, now), flags);
    var n := Next(w, Run(q, now), flags);
    TrackedMeans(n.s, n.s.marks[q], n.delivered[q], n.runs[q], n.added, n.lastRun);
    if NothingLost(n) {
      SameIncreasing(n.delivered[q], n.added);
    }
  }

  lemma TrackedMeans(s: State, m: Mark, got: seq<nat>, runs: set<nat>, added: seq<nat>, lastRun: nat)
    requires Tracked(s, m, got, runs, added, lastRun)
    ensures Increasing(got) && forall e :: e in got ==> e in added
    ensures forall e, c :: e in s.data && c in runs && c >= s.data[e].time + 2 ==> e in got
  {
  }

  // ----- expiry -----

  /** Every scheduled query runs at least once in any three intervals since the configuration update. */
  ghost predicate Fair(w: World) {
    forall q, x :: q in w.scheduled && w.start <= x && x + 3 * w.maxInterval <= w.clock ==>
                     RanWithin(RunClocks(w, q), x, 3 * w.maxInterval)
  }

  ghost predicate RanWithin(clocks: set<nat>, from: nat, length: nat) {
    exists c :: c in clocks && from <= c < from + length
  }

  lemma GateOpen(s: State, q: string, p: string, scheduled: set<string>)
    requires s.queries <= scheduled && q in scheduled && p in scheduled
    requires |s.queries + {q}| >= |scheduled|
    ensures p == q || p in s.queries
  {
    var seen := s.queries + {q};
    if p !in seen {
      SubsetSize(seen, scheduled - {p});
    }
  }

  lemma {:induction false} SubsetSize(a: set<string>, b: set<string>)
    requires a <= b
    ensures |a| <= |b|
  {
    if a != {} {
      var x :| x in a;
      SubsetSize(a - {x}, b - {x});
    }
  }

  /** A run in which q ran late enough has delivered the row. */
  lemma RanLateEnough(w: World, q: string, e: nat, c: nat)
    requires WorldInv(w) && e in w.s.data && c in RunClocks(w, q) && c >= w.s.data[e].time + 2
    ensures e in Received(w, q)
  {
    hide Tracked, Inv, TimesUpTo, IdLog, RanSince, Settled;
    assert q in w.s.marks;
    TrackedMeans(w.s, w.s.marks[q], w.delivered[q], w.runs[q], w.added, w.lastRun);
  }

  lemma SeenBeforeExpiry(w: World, q: string, p: string, e: nat)
    requires WorldInv(w) && w.configured && !w.overflowed && Fair(w) && q in w.scheduled && p in w.scheduled
    requires e in w.s.data && w.s.data[e].time < w.s.expireTime && |w.s.queries + {q}| >= w.s.queryCount
    ensures e in Received(w, p) || (p == q && q !in w.s.queries && w.s.data[e].time + 2 <= w.start)
  {
    hide Inv, AllTracked, TimesUpTo, IdLog, Received;
    var time := w.s.data[e].time;
    GateOpen(w.s, q, p, w.scheduled);
    if time + 2 >= w.start && w.s.expireTime + 3 * w.maxInterval + 1 <= w.clock {
      assert RanWithin(RunClocks(w, p), time + 2, 3 * w.maxInterval);
      var c :| c in RunClocks(w, p) && time + 2 <= c;
      RanLateEnough(w, p, e, c);
    } else if p in w.s.queries {
      var c :| c in w.runs[p] && c >= w.start;
      RanLateEnough(w, p, e, c);
    }
  }

  lemma RunRemoves(s: State, flags: Flags, q: string, now: nat, e: nat)
    requires Inv(s) && FlagsOk(flags) && q != "" && 1 <= now < WORD && EffectiveExpiry(s, flags) <= now
    requires e in s.data
    ensures e !in RunState(s, flags, q, now).data <==> |s.queries + {q}| >= s.queryCount && s.data[e].time < s.expireTime
  {
    hide Inv, Purged, RunState;
    RunShape(s, flags, q, now);
    LoadMarkInv(s, q, now);
    PurgedRows(LoadMark(s, q, now), e);
  }

  lemma PeekRemoves(s: State, flags: Flags, constrained: bool, from: nat, to: nat, now: nat, e: nat)
    requires Inv(s) && 1 <= now < WORD && EffectiveExpiry(s, flags) <= now && e in s.data
    ensures e !in Get(PeekBase(s, constrained, now), flags, "", from, to, now).data <==>
            AllQueriesExecuted(s) && s.data[e].time < s.expireTime
  {
    hide Inv, Purged, Get, In;
    PeekShape(s, flags, constrained, from, to, now);
    LoadMarkInv(s, "", now);
    PurgedRows(PeekBase(s, constrained, now), e);
  }

  /** With the gate open every scheduled query is among those executed. */
  lemma AllExecuted(s: State, scheduled: set<string>, q: string)
    requires s.queries <= scheduled && q in scheduled && |s.queries| >= |scheduled|
    ensures q in s.queries && s.queries + {q} == s.queries
  {
    if q !in s.queries {
      SubsetSize(s.queries, scheduled - {q});
    }
  }

  /** Appending never removes a row while the buffer is within its limit. */
  lemma AddRemovesNothing(s: State, flags: Flags, rows: seq<string>, time: nat, e: nat)
    requires Inv(s) && flags.max <= WORD && |s.data| <= flags.max && rows != [] && e in s.data
    ensures e in AddBatch(s, flags, rows, time).data
  {
    IssueEidsIs(s, |rows|);
    StoredRows(IssueEids(s, |rows|).data, FirstEid(s), rows, time);
  }

  /** A removed row was received by every scheduled query, except perhaps the reading one on its first
      run since the configuration update. */
  lemma RemovesOnlySeen(w: World, flags: Flags, step: Step, e: nat, q: string)
    requires FlagsOk(flags) && WorldInv(w) && Enabled(w, step, flags)
    requires !w.overflowed && |w.s.data| <= flags.max && Fair(w) && q in w.scheduled
    requires e in w.s.data && e !in Next(w, step, flags).s.data
    ensures e in Received(w, q) ||
            (step.Run? && q == step.query && q !in w.s.queries && w.s.data[e].time + 2 <= w.start)
  {
    hide Received, Fair, Inv, AllTracked, TimesUpTo, IdLog, AddBatch, RunState, RunRows, ExpireCheck, EffectiveExpiry;
    match step
    case Add(rows, time, now) =>
      AddRemovesNothing(w.s, flags, rows, time, e);
    case Run(p, now) =>
      RunRemoves(w.s, flags, p, now, e);
      SeenBeforeExpiry(w, p, q, e);
    case Peek(constrained, from, to, now) =>
      PeekRemoves(w.s, flags, constrained, from, to, now, e);
      AllExecuted(w.s, w.scheduled, q);
      SeenBeforeExpiry(w, q, q, e);
    case Reconfigure(names, interval, now) =>
    case Reboot(now) =>
      CheckWithinLimit(Restart(w.s), flags.max);
  }

  /** The step deletes a row that q has not received: q itself reads, all other queries count as executed,
      the row lies before the expiry time and above the watermark of q. */
  predicate DropsUnseen(w: World, step: Step, e: nat, q: string) {
    && step.Run? && step.query == q && |w.s.queries + {q}| >= w.s.queryCount
    && e in w.s.data && w.s.data[e].time < w.s.expireTime && e > MarkEid(w.s, q)
  }

  /** The row is gone and q has not received it. */
  ghost predicate Missed(w: World, e: nat, q: string) {
    e !in w.s.data && e !in Received(w, q)
  }

  /** Within its limit, on schedule, and with q among the scheduled queries. */
  ghost predicate Calm(w: World, flags: Flags, q: string) {
    !w.overflowed && |w.s.data| <= flags.max && Fair(w) && q in w.scheduled
  }

  lemma ReceivedIffMarked(w: World, e: nat, q: string)
    requires WorldInv(w) && e in w.s.data && q != ""
    ensures e in Received(w, q) <==> e <= MarkEid(w.s, q)
  {
    hide WorldInv, Received, MarkEid, MarkCovers;
    KnowsItsPast(w, q);
  }

  /** A run delivers no row that is missing afterwards. */
  lemma DeliversOnlyKept(w: World, step: Step, flags: Flags, e: nat)
    requires FlagsOk(flags) && WorldInv(w) && step.Run? && Enabled(w, step, flags)
    requires e !in Next(w, step, flags).s.data
    ensures e !in RunRows(w.s, flags, step.query, step.now)
  {
    hide Inv, RunState, RunRows, NewMarkEid, ReadState, EffectiveExpiry, AllTracked, TimesUpTo, IdLog, RanSince, NewExpireTime;
    RunReads(w.s, flags, step.query, step.now, e);
    RunShape(w.s, flags, step.query, step.now);
  }

  lemma ReceivedNext(w: World, step: Step, flags: Flags, e: nat, q: string)
    requires FlagsOk(flags) && WorldInv(w) && Enabled(w, step, flags)
    requires e !in Next(w, step, flags).s.data
    ensures e in Received(Next(w, step, flags), q) <==> e in Received(w, q)
  {
    hide WorldInv, AddBatch, RunState, RunRows, ExpireCheck, EffectiveExpiry;
    if step.Run? {
      DeliversOnlyKept(w, step, flags, e);
    }
  }

  /** A row that is gone does not come back, and a row that stays is not changed. */
  lemma RowsOnlyGo(w: World, step: Step, flags: Flags, e: nat)
    requires FlagsOk(flags) && WorldInv(w) && Enabled(w, step, flags) && e in w.added
    ensures var n := Next(w, step, flags); e in n.s.data ==> e in w.s.data && n.s.data[e] == w.s.data[e]
  {
    hide Inv, AddBatch, RunState, RunRows, ExpireCheck, EffectiveExpiry, AllTracked, RanSince, In;
    match step
    case Add(rows, time, now) =>
      BoundGrows(w.s.records, w.lastTime, time);
      AddFacts(w.s, flags, rows, time, Top(w.s) + 1);
    case Run(q, now) =>
      RunShape(w.s, flags, q, now);
      ReadStateFrame(w.s, q, now);
    case Peek(constrained, from, to, now) =>
      PeekShape(w.s, flags, constrained, from, to, now);
    case Reconfigure(names, interval, now) =>
    case Reboot(now) =>
      RestartInv(w.s);
      ExpireCheckFrame(Restart(w.s), flags.max);
  }

  lemma StoredIsMissedWhen(w: World, step: Step, flags: Flags, e: nat, q: string)
    requires FlagsOk(flags) && WorldInv(w) && Enabled(w, step, flags) && Calm(w, flags, q) && e in w.s.data && q != ""
    ensures Missed(Next(w, step, flags), e, q) <==> DropsUnseen(w, step, e, q)
  {
    hide WorldInv, Received, Fair, AddBatch, RunState, RunRows, ExpireCheck, EffectiveExpiry, MarkEid;
    var n := Next(w, step, flags);
    ReceivedIffMarked(w, e, q);
    if e !in n.s.data {
      ReceivedNext(w, step, flags, e, q);
      RemovesOnlySeen(w, flags, step, e, q);
    }
    if step.Run? {
      RunRemovesHere(w, step, flags, e);
    }
  }

  lemma RunRemovesHere(w: World, step: Step, flags: Flags, e: nat)
    requires FlagsOk(flags) && WorldInv(w) && Enabled(w, step, flags) && step.Run? && e in w.s.data
    ensures e !in Next(w, step, flags).s.data <==>
            |w.s.queries + {step.query}| >= w.s.queryCount && w.s.data[e].time < w.s.expireTime
  {
    hide Inv, RunState, RunRows;
    RunRemoves(w.s, flags, step.query, step.now, e);
  }

  /** One step: a row is missed after it exactly when it was missed before or the step drops it unseen. */
  lemma MissedWhen(w: World, step: Step, flags: Flags, e: nat, q: string)
    requires FlagsOk(flags) && WorldInv(w) && Enabled(w, step, flags) && Calm(w, flags, q) && e in w.added && q != ""
    ensures Missed(Next(w, step, flags), e, q) <==> Missed(w, e, q) || DropsUnseen(w, step, e, q)
  {
    hide WorldInv, Received, Calm, Enabled, Next;
    if e in w.s.data {
      StoredIsMissedWhen(w, step, flags, e, q);
    } else {
      RowsOnlyGo(w, step, flags, e);
      ReceivedNext(w, step, flags, e, q);
    }
  }

  ghost predicate CalmThroughout(w: World, steps: seq<Step>, flags: Flags, q: string)
    requires FlagsOk(flags) && Possible(w, steps, flags)
    decreases steps
  {
    steps == [] || (Calm(w, flags, q) && CalmThroughout(Next(w, steps[0], flags), steps[1..], flags, q))
  }

  predicate SomeStepDropsUnseen(w: World, steps: seq<Step>, flags: Flags, e: nat, q: string)
    requires FlagsOk(flags) && Possible(w, steps, flags)
    decreases steps
  {
    steps != [] &&
    (DropsUnseen(w, steps[0], e, q) || SomeStepDropsUnseen(Next(w, steps[0], flags), steps[1..], flags, e, q))
  }

  lemma AddedGrows(w: World, step: Step, flags: Flags, e: nat)
    requires FlagsOk(flags) && Enabled(w, step, flags) && e in w.added
    ensures e in Next(w, step, flags).added
  {
    hide AddBatch, RunState, RunRows, ExpireCheck, EffectiveExpiry;
  }

  lemma {:induction false} MissedThroughout(w: World, steps: seq<Step>, flags: Flags, e: nat, q: string)
    requires FlagsOk(flags) && WorldInv(w) && Possible(w, steps, flags) && CalmThroughout(w, steps, flags, q)
    requires e in w.added && q != ""
    ensures Missed(Exec(w, steps, flags), e, q) <==> Missed(w, e, q) || SomeStepDropsUnseen(w, steps, flags, e, q)
    decreases steps
  {
    hide WorldInv, Enabled, Next, Calm, Missed, DropsUnseen;
    if steps != [] {
      StepKeeps(w, steps[0], flags);
      AddedGrows(w, steps[0], flags, e);
      MissedWhen(w, steps[0], flags, e, q);
      MissedThroughout(Next(w, steps[0], flags), steps[1..], flags, e, q);
    }
  }

  /** No event expires unseen, exactly: in any stretch of any run in which the buffer stays within its limit
      and every scheduled query runs at least once in three intervals, an event stored at the start of the
      stretch ends up gone and never received by q if and only if q itself dropped it, by reading when all
      other queries had executed while the event lay before the expiry time and above q's watermark. */
  lemma NoEventExpiresUnseen(before: seq<Step>, steps: seq<Step>, flags: Flags, e: nat, q: string)
    requires FlagsOk(flags) && Possible(Initial(), before, flags) && q != ""
    requires var w := Exec(Initial(), before, flags);
             e in w.s.data && Possible(w, steps, flags) && CalmThroughout(w, steps, flags, q)
    ensures var w := Exec(Initial(), before, flags);
            var n := Exec(w, steps, flags);
            e !in n.s.data && e !in Received(n, q) <==> SomeStepDropsUnseen(w, steps, flags, e, q)
  {
    hide Exec, Possible, CalmThroughout, SomeStepDropsUnseen, Received;
    InitialInv();
    ExecKeeps(Initial(), before, flags);
    var w := Exec(Initial(), before, flags);
    StoredWereAdded(w, e);
    hide WorldInv;
    MissedThroughout(w, steps, flags, e, q);
  }

  lemma StoredWereAdded(w: World, e: nat)
    requires WorldInv(w) && e in w.s.data
    ensures e in w.added
  {
    hide Inv, AllTracked, TimesUpTo, Settled, RanSince;
  }

  /** When that can happen: only on the first run of q since the configuration update, and only to an
      event dated two seconds before that update or earlier. */
  lemma OnlyFirstRunDropsUnseen(before: seq<Step>, step: Step, flags: Flags, e: nat, q: string)
    requires FlagsOk(flags) && Possible(Initial(), before, flags)
    requires var w := Exec(Initial(), before, flags);
             Enabled(w, step, flags) && Calm(w, flags, q) && DropsUnseen(w, step, e, q)
    ensures var w := Exec(Initial(), before, flags);
            q !in w.s.queries && w.s.data[e].time + 2 <= w.start
  {
    hide Exec, Possible, WorldInv, Enabled, Calm, DropsUnseen;
    InitialInv();
    ExecKeeps(Initial(), before, flags);
    DropsOnlyOld(Exec(Initial(), before, flags), step, flags, e, q);
  }

  lemma DropsOnlyOld(w: World, step: Step, flags: Flags, e: nat, q: string)
    requires FlagsOk(flags) && WorldInv(w) && Enabled(w, step, flags) && Calm(w, flags, q) && DropsUnseen(w, step, e, q)
    ensures e in w.s.data && q !in w.s.queries && w.s.data[e].time + 2 <= w.start
  {
    hide Received, Fair;
    SettledNames(w, q, step, flags);
    hide WorldInv, Enabled, Next, MarkEid;
    ReceivedIffMarked(w, e, q);
    RunRemovesHere(w, step, flags, e);
    RemovesOnlySeen(w, flags, step, e, q);
  }

  predicate NoUpdate(steps: seq<Step>) {
    forall i :: 0 <= i < |steps| ==> !steps[i].Reconfigure?
  }

  lemma StartStays(w: World, step: Step, flags: Flags)
    requires FlagsOk(flags) && Enabled(w, step, flags) && !step.Reconfigure?
    ensures Next(w, step, flags).start == w.start
  {
    hide AddBatch, RunState, RunRows, ExpireCheck, EffectiveExpiry, Get;
  }

  lemma {:induction false} RecentIsKept(w: World, steps: seq<Step>, flags: Flags, e: nat, q: string)
    requires FlagsOk(flags) && WorldInv(w) && Possible(w, steps, flags) && CalmThroughout(w, steps, flags, q)
    requires NoUpdate(steps) && e in w.added && (e in w.s.data ==> w.s.data[e].time + 2 > w.start)
    ensures !SomeStepDropsUnseen(w, steps, flags, e, q)
    decreases steps
  {
    hide WorldInv, Enabled, Next, Calm, DropsUnseen;
    if steps != [] {
      var step := steps[0];
      StepKeeps(w, step, flags);
      AddedGrows(w, step, flags, e);
      RowsOnlyGo(w, step, flags, e);
      StartStays(w, step, flags);
      if DropsUnseen(w, step, e, q) {
        DropsOnlyOld(w, step, flags, e, q);
      }
      RecentIsKept(Next(w, step, flags), steps[1..], flags, e, q);
    }
  }

  /** No event expires unseen: in a stretch of any run without configuration updates, within the limit and on
      schedule, an event dated later than two seconds before the last update is not deleted before
      every scheduled query has received it. */
  lemma RecentEventIsSeen(before: seq<Step>, steps: seq<Step>, flags: Flags, e: nat, q: string)
    requires FlagsOk(flags) && Possible(Initial(), before, flags) && q != "" && NoUpdate(steps)
    requires var w := Exec(Initial(), before, flags);
             && e in w.s.data && w.s.data[e].time + 2 > w.start
             && Possible(w, steps, flags) && CalmThroughout(w, steps, flags, q)
    ensures var n := Exec(Exec(Initial(), before, flags), steps, flags);
            e in n.s.data || e in Received(n, q)
  {
    hide Exec, Possible, CalmThroughout, SomeStepDropsUnseen, Received;
    InitialInv();
    ExecKeeps(Initial(), before, flags);
    var w := Exec(Initial(), before, flags);
    StoredWereAdded(w, e);
    hide WorldInv;
    RecentIsKept(w, steps, flags, e, q);
    NoEventExpiresUnseen(before, steps, flags, e, q);
  }

  lemma SettledNames(w: World, q: string, step: Step, flags: Flags)
    requires WorldInv(w) && step.Run? && step.query == q && Enabled(w, step, flags)
    ensures q != ""
  {
    hide Inv, AllTracked, TimesUpTo, IdLog, RanSince;
  }

  // ----- the exception is real -----

  function ExampleFlags(): Flags {
    Flags(true, 60, 100)
  }

  function ExampleSteps(): seq<Step> {
    [Add(["x"], 600, 600), Reconfigure({"a", "b"}, 1, 10000), Run("a", 10000)]
  }

  lemma ExampleStore()
    ensures Enabled(Initial(), Add(["x"], 600, 600), ExampleFlags())
    ensures AddBatch(Empty(), ExampleFlags(), ["x"], 600) ==
            State(map[1 := Event(600, "x")], map[10 := [Record(1, 600)]], [10], 10, map[], 1, 0, 0, 0, {}, 0, 0)
  {
    assert EidRange(1, 1) == [1];
    assert NewRecords([1], 600) == [Record(1, 600)];
    assert StoreRows(map[], 1, ["x"], 600) == map[1 := Event(600, "x")];
  }

  lemma ExampleRunA(w: World)
    requires WorldInv(w) && w.configured && w.scheduled == {"a", "b"} && w.clock == 10000
    requires w.s.queries == {} && w.s.queryCount == 2 && w.s.minExpiration == 60 && 1 in w.s.data && w.s.data[1].time == 600
    ensures Enabled(w, Run("a", 10000), ExampleFlags())
    ensures var n := Next(w, Run("a", 10000), ExampleFlags());
            && WorldInv(n) && 1 in n.s.data && n.s.data[1].time == 600 && n.s.expireTime == 9900
            && n.s.queries == {"a"} && n.s.queryCount == 2 && n.s.minExpiration == 60
  {
    hide WorldInv, RunState, RunRows, ReadState, NewMarkEid, Inv, In, Top, AddBatch, ExpireCheck;
    var f := ExampleFlags();
    WorldInvStore(w);
    RunKeeps(w, Run("a", 10000), f);
    RunShape(w.s, f, "a", 10000);
    ReadStateFrame(w.s, "a", 10000);
    assert |w.s.queries + {"a"}| == 1;
    RunRemoves(w.s, f, "a", 10000, 1);
  }

  lemma WorldInvStore(w: World)
    requires WorldInv(w)
    ensures Inv(w.s)
  {
  }

  lemma ExampleRunB(w: World)
    requires WorldInv(w) && w.configured && w.scheduled == {"a", "b"} && w.clock == 10000 && "b" !in w.delivered
    requires w.s.queries == {"a"} && w.s.queryCount == 2 && w.s.minExpiration == 60 && w.s.expireTime == 9900
    requires 1 in w.s.data && w.s.data[1].time == 600
    ensures Enabled(w, Run("b", 10000), ExampleFlags())
    ensures var n := Next(w, Run("b", 10000), ExampleFlags());
            1 !in n.s.data && 1 !in Received(n, "b")
  {
    hide WorldInv, RunState, RunRows, ReadState, NewMarkEid;
    var f := ExampleFlags();
    WorldInvStore(w);
    assert |w.s.queries + {"b"}| == 2;
    RunRemoves(w.s, f, "b", 10000, 1);
    RunShape(w.s, f, "b", 10000);
    RunReads(w.s, f, "b", 10000, 1);
  }

  lemma ExampleConfigured()
    ensures Enabled(Initial(), ExampleSteps()[0], ExampleFlags())
    ensures var w1 := Next(Initial(), ExampleSteps()[0], ExampleFlags());
            && Enabled(w1, ExampleSteps()[1], ExampleFlags())
            && var w := Next(w1, ExampleSteps()[1], ExampleFlags());
               && WorldInv(w) && w.configured && w.scheduled == {"a", "b"} && w.clock == w.start == 10000
               && w.s.queries == {} && w.s.queryCount == 2 && w.s.minExpiration == 60 && !w.overflowed
               && w.s.data == map[1 := Event(600, "x")] && w.delivered == map[]
  {
    hide WorldInv, RunState, RunRows, AddBatch, ExpireCheck;
    ExampleStore();
    InitialInv();
    StepKeeps(Initial(), ExampleSteps()[0], ExampleFlags());
    var w1 := Next(Initial(), ExampleSteps()[0], ExampleFlags());
    assert |{"a", "b"}| == 2;
    StepKeeps(w1, ExampleSteps()[1], ExampleFlags());
  }

  lemma ExecThree(w: World, steps: seq<Step>, flags: Flags)
    requires FlagsOk(flags) && |steps| == 3 && Enabled(w, steps[0], flags)
    requires Enabled(Next(w, steps[0], flags), steps[1], flags)
    requires Enabled(Next(Next(w, steps[0], flags), steps[1], flags), steps[2], flags)
    ensures Possible(w, steps, flags)
    ensures Exec(w, steps, flags) == Next(Next(Next(w, steps[0], flags), steps[1], flags), steps[2], flags)
  {
    hide Enabled, Next;
    var s1, s2 := steps[1..], steps[2..];
    var w1 := Next(w, steps[0], flags);
    var w2 := Next(w1, steps[1], flags);
    var w3 := Next(w2, steps[2], flags);
    assert s2[1..] == [] && Possible(w3, [], flags) && Exec(w3, [], flags) == w3;
    assert Possible(w2, s2, flags) && Exec(w2, s2, flags) == w3;
    assert s1[1..] == s2;
    assert Possible(w1, s1, flags) && Exec(w1, s1, flags) == w3;
  }

  /** A row older than the configuration update is removed by the first run of a query that never
      received it, although the run is fair and nothing overflowed. */
  lemma FirstRunMayLoseOldEvent()
    ensures FlagsOk(ExampleFlags()) && Possible(Initial(), ExampleSteps(), ExampleFlags())
    ensures var w := Exec(Initial(), ExampleSteps(), ExampleFlags());
            && !w.overflowed && Fair(w) && Enabled(w, Run("b", 10000), ExampleFlags())
            && var n := Next(w, Run("b", 10000), ExampleFlags());
               1 in w.s.data && 1 !in n.s.data && 1 !in Received(n, "b")
  {
    hide WorldInv, RunState, RunRows, AddBatch, ExpireCheck, Exec, Possible;
    ExampleConfigured();
    var w1 := Next(Initial(), ExampleSteps()[0], ExampleFlags());
    var w2 := Next(w1, ExampleSteps()[1], ExampleFlags());
    ExampleRunA(w2);
    ExampleRunB(Next(w2, ExampleSteps()[2], ExampleFlags()));
    ExecThree(Initial(), ExampleSteps(), ExampleFlags());
  }
}
