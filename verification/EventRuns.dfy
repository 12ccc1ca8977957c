/** Runs of the store with events dated anyhow: batches, window reads, watermark reads, configuration
    updates and restarts in any order. */
module EventRuns {
  import opened EventKeys
  import opened EventModel
  import opened EventInvariant
  import opened EventEviction
  import opened EventReads
  import opened EventDisorder

  datatype World = World(s: State, clock: nat, lastTime: nat)

  datatype Step =
    | Add(rows: seq<string>, time: nat, now: nat)
    | Window(executing: string, start: nat, stop: nat, now: nat)
    | Run(query: string, now: nat)
    | Update(maxInterval: nat, count: nat, now: nat)
    | Reboot(now: nat)

  function Initial(): World {
    World(Empty(), 0, 0)
  }

  /** Only the clock and the machine's number ranges are restricted. */
  predicate Enabled(w: World, step: Step, flags: Flags) {
    && w.clock <= step.now < WORD
    && match step
       case Add(rows, time, now) => Top(w.s) + |rows| < EID_BOUND
       case Window(_, _, _, now) => EffectiveExpiry(w.s, flags) <= WORD
       case Run(q, now) => 1 <= now && EffectiveExpiry(w.s, flags) <= WORD
       case Update(_, _, now) => true
       case Reboot(now) => w.s.eidKey < EID_BOUND
  }

  function Next(w: World, step: Step, flags: Flags): World
    requires flags.max <= WORD && Enabled(w, step, flags)
  {
    match step
    case Add(rows, time, now) => World(AddBatch(w.s, flags, rows, time), now, if rows == [] then w.lastTime else time)
    case Window(q, start, stop, now) => World(Get(w.s, flags, q, start, stop, now), now, w.lastTime)
    case Run(q, now) => World(RunState(w.s, flags, q, now), now, w.lastTime)
    case Update(maxInterval, count, now) => World(Configure(w.s, maxInterval, count), now, w.lastTime)
    case Reboot(now) => World(ExpireCheck(Restart(w.s), flags.max), now, w.lastTime)
  }

  predicate Possible(w: World, steps: seq<Step>, flags: Flags)
    requires flags.max <= WORD
    decreases steps
  {
    steps == [] || (Enabled(w, steps[0], flags) && Possible(Next(w, steps[0], flags), steps[1..], flags))
  }

  function Exec(w: World, steps: seq<Step>, flags: Flags): World
    requires flags.max <= WORD && Possible(w, steps, flags)
    decreases steps
  {
    if steps == [] then w else Exec(Next(w, steps[0], flags), steps[1..], flags)
  }

  // ----- every run keeps the store sound -----

  /** A watermark time is a second behind the clock at least, or zero. */
  predicate Behind(time: nat, clock: nat) {
    time == 0 || time < clock
  }

  ghost predicate MarksBehind(s: State, clock: nat) {
    Behind(s.optimizeTime, clock) && forall q :: q in s.marks ==> Behind(s.marks[q].time, clock)
  }

  ghost predicate WorldSound(w: World) {
    Sound(w.s) && MarksBehind(w.s, w.clock)
  }

  lemma GetMarks(s: State, flags: Flags, q: string, start: nat, stop: nat, now: nat)
    requires Sound(s) && EffectiveExpiry(s, flags) <= WORD
    ensures var t := Get(s, flags, q, start, stop, now);
            && t.optimizeTime == s.optimizeTime && Top(t) == Top(s)
            && t.marks.Keys == s.marks.Keys + (if flags.optimize && q != "" then {q} else {})
            && (forall p :: p in t.marks ==> if flags.optimize && p == q != "" then t.marks[p].time == s.optimizeTime
                                             else p in s.marks && t.marks[p] == s.marks[p])
  {
    hide Sound, Expire, Fetched, Swept;
    ExpirySweeps(s, true);
    SweptFrame(s);
  }

  lemma StepSound(w: World, step: Step, flags: Flags)
    requires flags.max <= WORD && WorldSound(w) && Enabled(w, step, flags)
    ensures WorldSound(Next(w, step, flags))
  {
    hide Sound, AddBatch, Get, ExpireCheck, EffectiveExpiry, In;
    match step
    case Add(rows, time, now) => AddBatchSound(w.s, flags, rows, time);
    case Window(q, start, stop, now) =>
      GetSound(w.s, flags, q, start, stop, now);
      GetMarks(w.s, flags, q, start, stop, now);
    case Run(q, now) =>
      var l := LoadMark(w.s, q, now);
      LoadMarkSound(w.s, q, now);
      SameExpiry(w.s, q, now, flags);
      GetSound(l, flags, q, MarkStart(w.s, q), 0, now);
      GetMarks(l, flags, q, MarkStart(w.s, q), 0, now);
    case Update(maxInterval, count, now) => ConfigureSound(w.s, maxInterval, count);
    case Reboot(now) =>
      RestartSound(w.s);
      ExpireCheckSound(Restart(w.s), flags.max);
  }

  lemma SameExpiry(s: State, q: string, now: nat, flags: Flags)
    ensures EffectiveExpiry(LoadMark(s, q, now), flags) == EffectiveExpiry(s, flags)
  {
  }

  lemma InitialSound()
    ensures WorldSound(Initial())
  {
    EmptySound();
  }

  lemma {:induction false} ExecSound(w: World, steps: seq<Step>, flags: Flags)
    requires flags.max <= WORD && Possible(w, steps, flags) && WorldSound(w)
    ensures WorldSound(Exec(w, steps, flags))
    decreases steps
  {
    hide WorldSound, Enabled, Next;
    if steps != [] {
      StepSound(w, steps[0], flags);
      ExecSound(Next(w, steps[0], flags), steps[1..], flags);
    }
  }

  // ----- how many rows are stored -----

  /** Rows added since the last check of the limit: since the last batch that ended at a multiple of 256, its own
      rows included, or since the last start. */
  function Unchecked(w: World, steps: seq<Step>, flags: Flags, since: nat): nat
    requires flags.max <= WORD && Possible(w, steps, flags)
    decreases steps
  {
    if steps == [] then since else Unchecked(Next(w, steps[0], flags), steps[1..], flags, UncheckedAfter(w, steps[0], since))
  }

  function UncheckedAfter(w: World, step: Step, since: nat): nat {
    if step.Reboot? then 0
    else if !step.Add? then since
    else if step.rows != [] && (Top(w.s) + |step.rows|) % 256 == 0 then |step.rows|
    else since + |step.rows|
  }

  lemma StepCount(w: World, step: Step, flags: Flags, since: nat)
    requires flags.max <= WORD && WorldSound(w) && Enabled(w, step, flags) && |w.s.data| <= flags.max + 1 + since
    ensures |Next(w, step, flags).s.data| <= flags.max + 1 + UncheckedAfter(w, step, since)
  {
    hide Sound, AddBatch, Get, ExpireCheck, EffectiveExpiry, In;
    match step
    case Add(rows, time, now) =>
      if rows == [] {
        AddNothing(w.s, flags, time);
      } else {
        AddBatchCount(w.s, flags, rows, time);
      }
    case Window(q, start, stop, now) =>
      GetKeepsRows(w.s, flags, q, start, stop, now);
      SmallerStore(w.s.data, Next(w, step, flags).s.data);
    case Run(q, now) =>
      LoadMarkSound(w.s, q, now);
      SameExpiry(w.s, q, now, flags);
      GetKeepsRows(LoadMark(w.s, q, now), flags, q, MarkStart(w.s, q), 0, now);
      SmallerStore(w.s.data, Next(w, step, flags).s.data);
    case Update(maxInterval, count, now) =>
    case Reboot(now) =>
      RestartSound(w.s);
      CheckedCount(Restart(w.s), flags.max);
  }

  lemma {:induction false} CountThroughout(w: World, steps: seq<Step>, flags: Flags, since: nat)
    requires flags.max <= WORD && WorldSound(w) && Possible(w, steps, flags) && |w.s.data| <= flags.max + 1 + since
    ensures |Exec(w, steps, flags).s.data| <= flags.max + 1 + Unchecked(w, steps, flags, since)
    decreases steps
  {
    hide WorldSound, Enabled, Next, UncheckedAfter;
    if steps != [] {
      StepSound(w, steps[0], flags);
      StepCount(w, steps[0], flags, since);
      CountThroughout(Next(w, steps[0], flags), steps[1..], flags, UncheckedAfter(w, steps[0], since));
    }
  }

  /** Over every run the store holds at most the limit, one more, and the rows added since the last check. */
  lemma StoredRowsBounded(steps: seq<Step>, flags: Flags)
    requires flags.max <= WORD && Possible(Initial(), steps, flags)
    ensures |Exec(Initial(), steps, flags).s.data| <= flags.max + 1 + Unchecked(Initial(), steps, flags, 0)
  {
    InitialSound();
    CountThroughout(Initial(), steps, flags, 0);
  }

  predicate SingleRows(steps: seq<Step>) {
    forall i :: 0 <= i < |steps| && steps[i].Add? ==> |steps[i].rows| <= 1
  }

  lemma TopAfter(w: World, step: Step, flags: Flags)
    requires flags.max <= WORD && WorldSound(w) && Enabled(w, step, flags) && !step.Reboot?
    ensures Top(Next(w, step, flags).s) == Top(w.s) + if step.Add? then |step.rows| else 0
  {
    hide Sound, AddBatch, Get, ExpireCheck, EffectiveExpiry, In;
    match step
    case Add(rows, time, now) => AddBatchSound(w.s, flags, rows, time);
    case Window(q, start, stop, now) => GetMarks(w.s, flags, q, start, stop, now);
    case Run(q, now) =>
      LoadMarkSound(w.s, q, now);
      SameExpiry(w.s, q, now, flags);
      GetMarks(LoadMark(w.s, q, now), flags, q, MarkStart(w.s, q), 0, now);
    case Update(maxInterval, count, now) =>
  }

  lemma {:induction false} SinglesChecked(w: World, steps: seq<Step>, flags: Flags, since: nat)
    requires flags.max <= WORD && WorldSound(w) && Possible(w, steps, flags) && SingleRows(steps)
    requires since <= 1 + Top(w.s) % 256
    ensures Unchecked(w, steps, flags, since) <= 256
    decreases steps
  {
    hide WorldSound, Enabled, Next, Top;
    if steps != [] {
      StepSound(w, steps[0], flags);
      if !steps[0].Reboot? {
        TopAfter(w, steps[0], flags);
      }
      SinglesChecked(Next(w, steps[0], flags), steps[1..], flags, UncheckedAfter(w, steps[0], since));
    }
  }

  /** When events are added one at a time, the store never holds more than the limit and 257 rows. */
  lemma SingleEventsBounded(steps: seq<Step>, flags: Flags)
    requires flags.max <= WORD && Possible(Initial(), steps, flags) && SingleRows(steps)
    ensures |Exec(Initial(), steps, flags).s.data| <= flags.max + 257
  {
    StoredRowsBounded(steps, flags);
    InitialSound();
    SinglesChecked(Initial(), steps, flags, 0);
  }

  /** One event, then k batches of two. */
  function Pairs(k: nat): seq<Batch> {
    if k == 0 then [Batch(["x"], 1)] else Pairs(k - 1) + [Batch(["x", "y"], 1)]
  }

  lemma KeepsAll(s: State, flags: Flags, rows: seq<string>, time: nat)
    requires Sound(s) && flags.max <= WORD && rows != [] && Top(s) + |rows| < EID_BOUND && (Top(s) + |rows|) % 256 != 0
    requires forall e :: e in s.data <==> 1 <= e <= Top(s)
    ensures var t := AddBatch(s, flags, rows, time);
            Sound(t) && Top(t) == Top(s) + |rows| && forall e :: e in t.data <==> 1 <= e <= Top(t)
  {
    hide Sound, AddBatch, In, TakenByCheck;
    AddBatchSound(s, flags, rows, time);
    forall e: nat
      ensures e in AddBatch(s, flags, rows, time).data <==> 1 <= e <= Top(s) + |rows|
    {
      AddBatchRows(s, flags, rows, time, e);
    }
  }

  /** Batches of two after a single event never end at a multiple of 256: nothing is ever evicted, whatever
      the limit is, and the store grows without bound. */
  lemma {:induction false} PairsAreNeverEvicted(flags: Flags, k: nat)
    requires flags.max <= WORD && 2 * k + 1 < EID_BOUND
    ensures var s := AddAll(Empty(), flags, Pairs(k));
            Sound(s) && Top(s) == 2 * k + 1 && (forall e :: e in s.data <==> 1 <= e <= 2 * k + 1) && |s.data| == 2 * k + 1
  {
    hide Sound, AddBatch, Top, AddAll, Empty;
    EmptySound();
    EmptyFills();
    var rows := if k == 0 then ["x"] else ["x", "y"];
    var earlier := if k == 0 then [] else Pairs(k - 1);
    AddAllNext(Empty(), flags, earlier, Batch(rows, 1));
    assert [] + [Batch(["x"], 1)] == [Batch(["x"], 1)];
    if k > 0 {
      PairsAreNeverEvicted(flags, k - 1);
    }
    KeepsAll(AddAll(Empty(), flags, earlier), flags, rows, 1);
    var s := AddAll(Empty(), flags, Pairs(k));
    UpToSize(s.data.Keys, 2 * k + 1);
    assert |s.data| == |s.data.Keys|;
  }

  lemma AddAllNext(s: State, flags: Flags, batches: seq<Batch>, last: Batch)
    requires flags.max <= WORD
    ensures AddAll(s, flags, batches + [last]) == AddBatch(AddAll(s, flags, batches), flags, last.rows, last.time)
    ensures AddAll(s, flags, []) == s
  {
    assert (batches + [last])[..|batches|] == batches;
  }

  // ----- window reads -----

  /** Batches come with times that do not decrease. */
  predicate InOrder(w: World, steps: seq<Step>, flags: Flags)
    requires flags.max <= WORD && Possible(w, steps, flags)
    decreases steps
  {
    steps == [] ||
    ((steps[0].Add? ==> 1 <= steps[0].time && w.lastTime <= steps[0].time) && InOrder(Next(w, steps[0], flags), steps[1..], flags))
  }

  ghost predicate OrderedWorld(w: World) {
    Inv(w.s) && forall r :: In(w.s.records, r) ==> r.time <= w.lastTime
  }

  lemma GetInv(s: State, flags: Flags, q: string, start: nat, stop: nat, now: nat)
    requires Inv(s) && EffectiveExpiry(s, flags) <= WORD
    ensures var t := Get(s, flags, q, start, stop, now);
            Inv(t) && forall r :: In(t.records, r) ==> In(s.records, r)
  {
    hide Inv, Expire, Get, Purged, In;
    InvNumbers(s);
    ExpiryExact(s, true);
    PurgedFrame(s);
    GetShape(s, flags, q, start, stop, now);
    var t := Get(s, flags, q, start, stop, now);
    InvIgnores(Purged(s), t.optimizeEid, t.expireTime, t.marks);
  }

  lemma AddOrdered(w: World, step: Step, flags: Flags)
    requires flags.max <= WORD && OrderedWorld(w) && Enabled(w, step, flags) && step.Add?
    requires 1 <= step.time && w.lastTime <= step.time
    ensures OrderedWorld(Next(w, step, flags))
  {
    hide Inv, AddBatch, In, Issued;
    if step.rows != [] {
      AddBatchInv(w.s, flags, step.rows, step.time);
      IssuedFrame(w.s, flags, |step.rows|);
    } else {
      AddNothing(w.s, flags, step.time);
    }
  }

  lemma AddNothing(s: State, flags: Flags, time: nat)
    requires flags.max <= WORD
    ensures AddBatch(s, flags, [], time) == s
  {
  }

  lemma StepOrdered(w: World, step: Step, flags: Flags)
    requires flags.max <= WORD && OrderedWorld(w) && Enabled(w, step, flags)
    requires step.Add? ==> 1 <= step.time && w.lastTime <= step.time
    ensures OrderedWorld(Next(w, step, flags))
  {
    hide Inv, AddBatch, Get, ExpireCheck, EffectiveExpiry, In;
    match step
    case Add(rows, time, now) => AddOrdered(w, step, flags);
    case Window(q, start, stop, now) => GetInv(w.s, flags, q, start, stop, now);
    case Run(q, now) =>
      LoadMarkInv(w.s, q, now);
      SameExpiry(w.s, q, now, flags);
      GetInv(LoadMark(w.s, q, now), flags, q, MarkStart(w.s, q), 0, now);
    case Update(maxInterval, count, now) => ConfigureInv(w.s, maxInterval, count);
    case Reboot(now) =>
      RestartInv(w.s);
      ExpireCheckFrame(Restart(w.s), flags.max);
  }

  lemma {:induction false} ExecOrdered(w: World, steps: seq<Step>, flags: Flags)
    requires flags.max <= WORD && Possible(w, steps, flags) && OrderedWorld(w) && InOrder(w, steps, flags)
    ensures OrderedWorld(Exec(w, steps, flags))
    decreases steps
  {
    hide OrderedWorld, Enabled, Next;
    if steps != [] {
      StepOrdered(w, steps[0], flags);
      ExecOrdered(Next(w, steps[0], flags), steps[1..], flags);
    }
  }

  lemma InitialOrdered()
    ensures OrderedWorld(Initial())
  {
  }

  /** The minute index agrees with a plain scan at every window read of every run: the read returns the
      rows of the window that its expiry left, each once, however events are dated; and if they are dated
      in order, that expiry left exactly the rows that have not expired. */
  lemma WindowReadsAgree(steps: seq<Step>, flags: Flags, start: nat, stop: nat)
    requires flags.max <= WORD && !flags.optimize && Possible(Initial(), steps, flags)
    ensures var s := Exec(Initial(), steps, flags).s;
            && Agree(GetRows(s, flags, start, stop), Expire(s, true).data, start, stop)
            && (InOrder(Initial(), steps, flags) ==> Expire(s, true) == Purged(s))
  {
    hide Exec, Possible, InOrder, Agree, GetRows, Expire, Purged, Sound, Inv;
    InitialSound();
    ExecSound(Initial(), steps, flags);
    var s := Exec(Initial(), steps, flags).s;
    WindowAgrees(s, flags, start, stop);
    if InOrder(Initial(), steps, flags) {
      InitialOrdered();
      ExecOrdered(Initial(), steps, flags);
      ExpiryExact(s, true);
    }
  }

  // ----- rows dated before the last read or after the next -----

  /** The ids that runs of q return, run after run. */
  function Returned(w: World, steps: seq<Step>, flags: Flags, q: string): seq<nat>
    requires flags.max <= WORD && Possible(w, steps, flags)
    decreases steps
  {
    if steps == [] then []
    else
      (if steps[0].Run? && steps[0].query == q then RunRows(w.s, flags, q, steps[0].now) else []) +
      Returned(Next(w, steps[0], flags), steps[1..], flags, q)
  }

  /** A row dated before the watermark time of q, whether it is still stored or not. */
  ghost predicate Late(s: State, q: string, e: nat, time: nat) {
    q != "" && q in s.marks && time < s.marks[q].time && e <= Top(s) && (e in s.data ==> s.data[e].time == time)
  }

  /** A window read by q writes the watermark of q with the time of whatever watermark read came last. It
      uncovers a row dated at that time or later. */
  predicate Uncovers(s: State, step: Step, q: string, time: nat) {
    step.Window? && step.executing == q && s.optimizeTime <= time
  }

  predicate NeverUncovered(w: World, steps: seq<Step>, flags: Flags, q: string, time: nat)
    requires flags.max <= WORD && Possible(w, steps, flags)
    decreases steps
  {
    steps == [] ||
    (!Uncovers(w.s, steps[0], q, time) && NeverUncovered(Next(w, steps[0], flags), steps[1..], flags, q, time))
  }

  lemma GetKeepsRows(s: State, flags: Flags, q: string, start: nat, stop: nat, now: nat)
    requires Sound(s) && EffectiveExpiry(s, flags) <= WORD
    ensures forall e :: e in Get(s, flags, q, start, stop, now).data ==>
                        e in s.data && Get(s, flags, q, start, stop, now).data[e] == s.data[e]
  {
    hide Sound, Expire, Fetched, Swept, In;
    ExpirySweeps(s, true);
    SweptFrame(s);
  }

  lemma StepKeepsLate(w: World, step: Step, flags: Flags, q: string, e: nat, time: nat)
    requires flags.max <= WORD && flags.optimize && WorldSound(w) && Enabled(w, step, flags)
    requires Late(w.s, q, e, time)
    ensures Late(Next(w, step, flags).s, q, e, time) <==> !Uncovers(w.s, step, q, time)
  {
    hide Sound, AddBatch, Get, ExpireCheck, EffectiveExpiry, In;
    match step
    case Add(rows, t, now) => AddBatchSound(w.s, flags, rows, t);
    case Window(p, start, stop, now) =>
      GetKeepsRows(w.s, flags, p, start, stop, now);
      GetMarks(w.s, flags, p, start, stop, now);
    case Run(p, now) =>
      var l := LoadMark(w.s, p, now);
      LoadMarkSound(w.s, p, now);
      SameExpiry(w.s, p, now, flags);
      GetKeepsRows(l, flags, p, MarkStart(w.s, p), 0, now);
      GetMarks(l, flags, p, MarkStart(w.s, p), 0, now);
    case Update(maxInterval, count, now) =>
    case Reboot(now) =>
      RestartSound(w.s);
      ExpireCheckSound(Restart(w.s), flags.max);
  }

  lemma LateNotReturned(s: State, flags: Flags, q: string, now: nat, e: nat, time: nat)
    requires Sound(s) && flags.optimize && 1 <= now < WORD && Late(s, q, e, time)
    ensures e !in RunRows(s, flags, q, now)
  {
    hide Sound, RunRows, Expire, Swept, In;
    RunReturns(s, flags, q, now, e);
    LoadMarkSound(s, q, now);
    ExpirySweeps(LoadMark(s, q, now), true);
    SweptFrame(LoadMark(s, q, now));
  }

  lemma {:induction false} LateThroughout(w: World, steps: seq<Step>, flags: Flags, q: string, e: nat, time: nat)
    requires flags.max <= WORD && flags.optimize && WorldSound(w) && Possible(w, steps, flags)
    requires Late(w.s, q, e, time) && NeverUncovered(w, steps, flags, q, time)
    ensures e !in Returned(w, steps, flags, q)
    decreases steps
  {
    hide Sound, RunRows, Late, Next, Uncovers;
    if steps != [] {
      StepSound(w, steps[0], flags);
      StepKeepsLate(w, steps[0], flags, q, e, time);
      LateThroughout(Next(w, steps[0], flags), steps[1..], flags, q, e, time);
      if steps[0].Run? {
        LateNotReturned(w.s, flags, q, steps[0].now, e, time);
      }
    }
  }

  /** A stored row dated before the watermark time of q is never returned to q again, in any
      continuation of any run in which no window read by q uncovers it. */
  lemma LateRowIsNeverReturned(before: seq<Step>, steps: seq<Step>, flags: Flags, q: string, e: nat)
    requires flags.max <= WORD && flags.optimize && Possible(Initial(), before, flags) && q != ""
    requires var w := Exec(Initial(), before, flags);
             && e in w.s.data && q in w.s.marks && w.s.data[e].time < w.s.marks[q].time
             && Possible(w, steps, flags) && NeverUncovered(w, steps, flags, q, w.s.data[e].time)
    ensures e !in Returned(Exec(Initial(), before, flags), steps, flags, q)
  {
    hide Exec, Possible, Sound, Returned, NeverUncovered;
    InitialSound();
    ExecSound(Initial(), before, flags);
    var w := Exec(Initial(), before, flags);
    SoundRows(w.s);
    LateThroughout(w, steps, flags, q, e, w.s.data[e].time);
  }

  /** A row dated after the clock is returned by every run of every query until the clock reaches it. */
  lemma FutureRowIsReturned(before: seq<Step>, flags: Flags, q: string, now: nat, e: nat)
    requires flags.max <= WORD && flags.optimize && Possible(Initial(), before, flags)
    requires var w := Exec(Initial(), before, flags);
             var t := Expire(LoadMark(w.s, q, now), true);
             Enabled(w, Run(q, now), flags) && e in t.data && t.data[e].time > now
    ensures e in RunRows(Exec(Initial(), before, flags).s, flags, q, now)
  {
    hide Exec, Possible, Sound, RunRows, Expire;
    InitialSound();
    ExecSound(Initial(), before, flags);
    RunReturns(Exec(Initial(), before, flags).s, flags, q, now, e);
  }

  // ----- the next read of a query -----

  predicate ReadBy(step: Step, q: string) {
    (step.Run? && step.query == q) || (step.Window? && step.executing == q)
  }

  predicate NoReadBy(steps: seq<Step>, q: string) {
    forall i :: 0 <= i < |steps| ==> !ReadBy(steps[i], q)
  }

  lemma StepKeepsMark(w: World, step: Step, flags: Flags, q: string)
    requires flags.max <= WORD && WorldSound(w) && Enabled(w, step, flags) && !ReadBy(step, q) && q in w.s.marks
    ensures var n := Next(w, step, flags); q in n.s.marks && n.s.marks[q] == w.s.marks[q]
  {
    hide Sound, AddBatch, Get, ExpireCheck, EffectiveExpiry, In;
    match step
    case Add(rows, time, now) => AddBatchSound(w.s, flags, rows, time);
    case Window(p, start, stop, now) => GetMarks(w.s, flags, p, start, stop, now);
    case Run(p, now) =>
      LoadMarkSound(w.s, p, now);
      SameExpiry(w.s, p, now, flags);
      GetMarks(LoadMark(w.s, p, now), flags, p, MarkStart(w.s, p), 0, now);
    case Update(maxInterval, count, now) =>
    case Reboot(now) =>
      RestartSound(w.s);
      ExpireCheckSound(Restart(w.s), flags.max);
  }

  lemma {:induction false} ExecKeepsMark(w: World, steps: seq<Step>, flags: Flags, q: string)
    requires flags.max <= WORD && WorldSound(w) && Possible(w, steps, flags) && NoReadBy(steps, q) && q in w.s.marks
    ensures var n := Exec(w, steps, flags);
            WorldSound(n) && q in n.s.marks && n.s.marks[q] == w.s.marks[q] && w.clock <= n.clock
    decreases steps
  {
    if steps != [] {
      assert w.clock <= Next(w, steps[0], flags).clock;
      hide WorldSound, Next, ReadBy;
      StepSound(w, steps[0], flags);
      StepKeepsMark(w, steps[0], flags, q);
      ExecKeepsMark(Next(w, steps[0], flags), steps[1..], flags, q);
    }
  }

  /** Over every run, what the next read of q returns: a row still stored is returned exactly when it is dated after
      that read, or dated at the second before the read ahead of it or later with an id above the mark
      that read left. For a row the earlier read returned this says exactly when q receives it again. */
  lemma NextReadReturns(before: seq<Step>, first: Step, between: seq<Step>, second: Step, flags: Flags, e: nat)
    requires flags.max <= WORD && flags.optimize && Possible(Initial(), before, flags)
    requires first.Run? && second == Run(first.query, second.now) && first.query != ""
    requires var w := Exec(Initial(), before, flags);
             && Enabled(w, first, flags) && Possible(Next(w, first, flags), between, flags) && NoReadBy(between, first.query)
             && Enabled(Exec(Next(w, first, flags), between, flags), second, flags)
    ensures var q := first.query;
            var w1 := Next(Exec(Initial(), before, flags), first, flags);
            var w2 := Exec(w1, between, flags);
            var t := Expire(LoadMark(w2.s, q, second.now), true);
            && q in w1.s.marks
            && (e in RunRows(w2.s, flags, q, second.now) <==>
                e in t.data && (t.data[e].time > second.now || (t.data[e].time >= first.now - 1 && e > w1.s.marks[q].eid)))
  {
    hide Exec, Possible, Sound, RunRows, Expire, RunState, NoReadBy;
    InitialSound();
    ExecSound(Initial(), before, flags);
    var w := Exec(Initial(), before, flags);
    var w1 := Next(w, first, flags);
    StepSound(w, first, flags);
    RunMarks(w.s, flags, first.query, first.now);
    ExecKeepsMark(w1, between, flags, first.query);
    RunReturns(Exec(w1, between, flags).s, flags, first.query, second.now, e);
  }

  // ----- one run of each kind -----

  const WATCHED := Flags(true, 0, 100)

  lemma ExecTwo(w: World, a: Step, b: Step, flags: Flags)
    requires flags.max <= WORD && Enabled(w, a, flags) && Enabled(Next(w, a, flags), b, flags)
    ensures Possible(w, [a, b], flags) && Exec(w, [a, b], flags) == Next(Next(w, a, flags), b, flags)
  {
    hide Enabled, Next;
    var n := Next(Next(w, a, flags), b, flags);
    assert [a, b][1..] == [b] && [b][1..] == [];
    assert Possible(n, [], flags) && Exec(n, [], flags) == n;
    assert Possible(Next(w, a, flags), [b], flags) && Exec(Next(w, a, flags), [b], flags) == n;
  }

  /** Query q reads at time 100, an event dated 50 arrives, and no later run returns it, unless a window
      read by q uncovers it. */
  lemma LateRowIsMissed(after: seq<Step>)
    ensures var steps := [Run("q", 100), Add(["x"], 50, 100)];
            && Possible(Initial(), steps, WATCHED)
            && var w := Exec(Initial(), steps, WATCHED);
               && 1 in w.s.data
               && (Possible(w, after, WATCHED) && NeverUncovered(w, after, WATCHED, "q", 50) ==> 1 !in Returned(w, after, WATCHED, "q"))
  {
    hide Exec, Possible, Sound, Returned, Get, AddBatch, NeverUncovered;
    var read, add := Run("q", 100), Add(["x"], 50, 100);
    InitialSound();
    var l := LoadMark(Empty(), "q", 100);
    LoadMarkSound(Empty(), "q", 100);
    GetMarks(l, WATCHED, "q", 0, 0, 100);
    var w1 := Next(Initial(), read, WATCHED);
    AddOne(w1.s, WATCHED, ["x"], 50);
    ExecTwo(Initial(), read, add, WATCHED);
    var w := Next(w1, add, WATCHED);
    if Possible(w, after, WATCHED) && NeverUncovered(w, after, WATCHED, "q", 50) {
      LateRowIsNeverReturned([read, add], after, WATCHED, "q", 1);
    }
  }

  lemma NothingToExpire(s: State)
    requires s.index == [16] && s.expireTime == 0
    ensures Expire(s, true) == s
  {
    PartialBranchNeverRuns(s, s.index);
    assert [16][..0] == [];
    assert Expirations([16], 0) == [];
  }

  lemma FutureRead(s: State, now: nat)
    requires s.index == [16] && s.expireTime == 0 && 1 <= now < WORD && s.minExpiration == 0
    ensures Expire(LoadMark(s, "q", now), true).data == s.data
    ensures var t := RunState(s, WATCHED, "q", now); t.index == [16] && t.expireTime == 0 && t.data == s.data && t.minExpiration == 0
  {
    hide Expire, Fetched;
    NothingToExpire(LoadMark(s, "q", now));
  }

  /** An event dated 1000 is returned to q at time 10 and again at time 11. */
  lemma FutureRowRepeats()
    ensures var add, read, again := Add(["x"], 1000, 5), Run("q", 10), Run("q", 11);
            && Possible(Initial(), [add, read], WATCHED)
            && var w := Exec(Initial(), [add, read], WATCHED);
               && Enabled(w, again, WATCHED) && 1 in RunRows(w.s, WATCHED, "q", 11)
               && 1 in RunRows(Next(Initial(), add, WATCHED).s, WATCHED, "q", 10)
  {
    hide Exec, Possible, Sound, RunState, RunRows, Expire, AddBatch;
    var add, read := Add(["x"], 1000, 5), Run("q", 10);
    AddOne(Empty(), WATCHED, ["x"], 1000);
    InitialSound();
    StepSound(Initial(), add, WATCHED);
    var w1 := Next(Initial(), add, WATCHED);
    FutureRead(w1.s, 10);
    StepSound(w1, read, WATCHED);
    var w2 := Next(w1, read, WATCHED);
    FutureRead(w2.s, 11);
    RunReturns(w1.s, WATCHED, "q", 10, 1);
    RunReturns(w2.s, WATCHED, "q", 11, 1);
    ExecTwo(Initial(), add, read, WATCHED);
  }

  /** Rows 1 and 2, dated 60 and 59. */
  function Crossed(): State {
    Empty().(data := map[1 := Event(60, "x"), 2 := Event(59, "y")],
             records := map[1 := [Record(1, 60)], 0 := [Record(2, 59)]],
             index := [1, 0], eidKey := 10, lastEid := 2)
  }

  lemma CrossedIsReached()
    ensures AddBatch(AddBatch(Empty(), WATCHED, ["x"], 60), WATCHED, ["y"], 59) == Crossed()
    ensures Sound(Crossed())
  {
    hide AddBatch, Sound;
    EmptySound();
    AddOne(Empty(), WATCHED, ["x"], 60);
    AddBatchSound(Empty(), WATCHED, ["x"], 60);
    var s1 := OneMore(Empty(), "x", 60);
    assert s1.records[1] == [Record(1, 60)];
    AddOne(s1, WATCHED, ["y"], 59);
    AddBatchSound(s1, WATCHED, ["y"], 59);
    assert OneMore(s1, "y", 59).records[0] == [Record(2, 59)];
    assert OneMore(s1, "y", 59).records == Crossed().records;
  }

  lemma CrossedKept(s: State)
    requires s.index == [1, 0] && s.expireTime == 0
    ensures Expire(s, true) == s
  {
    PartialBranchNeverRuns(s, s.index);
    assert [1, 0][..1] == [1] && [1][..0] == [];
    assert Expirations([1], 0) == [];
    assert Expirations([1, 0], 0) == [];
  }

  lemma CrossedRun(s: State, now: nat)
    requires s.index == [1, 0] && s.expireTime == 0 && 1 <= now < WORD && s.minExpiration == 0
    ensures Expire(LoadMark(s, "q", now), true) == LoadMark(s, "q", now)
    ensures var t := RunState(s, WATCHED, "q", now);
            t.data == s.data && t.index == s.index && t.expireTime == 0 && t.minExpiration == 0
  {
    hide Expire, Fetched;
    CrossedKept(LoadMark(s, "q", now));
  }

  lemma CrossedMark()
    ensures var n := RunState(Crossed(), WATCHED, "q", 60); "q" in n.marks && n.marks["q"] == Mark(59, 1)
  {
    hide Expire, RunState, Sound;
    CrossedIsReached();
    CrossedRun(Crossed(), 60);
    RunMarks(Crossed(), WATCHED, "q", 60);
    var r1 := Record(1, 60);
    assert Gathered(Crossed(), "q", 60, r1) by {
      assert Crossed().records[1][0] == r1;
    }
    forall r | Gathered(Crossed(), "q", 60, r) && NotAfter(r1, r)
      ensures r == r1
    {
    }
  }

  /** Events dated 60 and then 59: q receives both at time 60, which leaves the mark at the first of them, and
      receives the second again at time 61 although it is neither late nor dated in the future. */
  lemma OlderMinuteRepeats()
    ensures var a, b, read, again := Add(["x"], 60, 60), Add(["y"], 59, 60), Run("q", 60), Run("q", 61);
            && Possible(Initial(), [a, b], WATCHED)
            && var w := Exec(Initial(), [a, b], WATCHED);
               && Enabled(w, read, WATCHED) && 2 in RunRows(w.s, WATCHED, "q", 60)
               && var n := Next(w, read, WATCHED);
                  Enabled(n, again, WATCHED) && 2 in RunRows(n.s, WATCHED, "q", 61)
  {
    hide Exec, Possible, Sound, RunState, RunRows, Expire, AddBatch;
    var a, b, read := Add(["x"], 60, 60), Add(["y"], 59, 60), Run("q", 60);
    InitialSound();
    CrossedIsReached();
    AddOne(Empty(), WATCHED, ["x"], 60);
    ExecTwo(Initial(), a, b, WATCHED);
    var w := World(Crossed(), 60, 59);
    CrossedRun(Crossed(), 60);
    CrossedMark();
    RunReturns(Crossed(), WATCHED, "q", 60, 2);
    StepSound(w, read, WATCHED);
    var n := Next(w, read, WATCHED);
    CrossedRun(n.s, 61);
    RunReturns(n.s, WATCHED, "q", 61, 2);
  }

  const SMALL := Flags(false, 60, 8)

  lemma EightRows(rows: seq<string>)
    requires |rows| == 8
    ensures var s := AddBatch(Empty(), SMALL, rows, 120);
            Sound(s) && Filling(s, 8) && Top(s) == 8 && 2 in s.data && s.data[2].time == 120
  {
    hide Sound, AddBatch, In, Filling, Empty, Top;
    EmptySound();
    EmptyFills();
    AddBatchSound(Empty(), SMALL, rows, 120);
    AddAnyTime(Empty(), SMALL, rows, 120, 0);
    FilledRows(AddBatch(Empty(), SMALL, rows, 120), 8);
  }

  lemma NineRows(rows: seq<string>)
    requires |rows| == 8
    ensures var s := AddBatch(AddBatch(Empty(), SMALL, rows, 120), SMALL, ["i"], 30);
            && Sound(s) && s.eidKey == 10 && |s.data| == 9
            && 2 in s.data && s.data[2].time == 120 && 9 in s.data && s.data[9].time == 30
  {
    hide Sound, AddBatch, In, Filling;
    EightRows(rows);
    var s1 := AddBatch(Empty(), SMALL, rows, 120);
    AddBatchSound(s1, SMALL, ["i"], 30);
    AddAnyTime(s1, SMALL, ["i"], 30, 8);
    FilledRows(AddBatch(s1, SMALL, ["i"], 30), 9);
  }

  lemma EmptyFills()
    ensures Filling(Empty(), 0) && Top(Empty()) == 0 && Empty().data == map[]
  {
  }

  lemma FilledRows(s: State, n: nat)
    requires Filling(s, n)
    ensures (forall e :: e in s.data <==> 1 <= e <= n) && |s.data| == n
    ensures 0 < n < 10 ==> s.eidKey == 10
  {
    UpToSize(s.data.Keys, n);
    assert |s.data| == |s.data.Keys|;
  }

  lemma {:induction false} UpToSize(ids: set<nat>, n: nat)
    requires forall e :: e in ids <==> 1 <= e <= n
    ensures |ids| == n
  {
    if n == 0 {
      assert ids == {};
    } else {
      UpToSize(ids - {n}, n - 1);
    }
  }

  lemma OldMinuteTaken(s: State)
    requires Sound(s) && s.eidKey == 10 && |s.data| == 9 && AllQueriesExecuted(s)
    requires 2 in s.data && s.data[2].time == 120 && 9 in s.data && s.data[9].time == 30
    ensures TakenByCheck(s, 8, 9)
  {
    OwnBin(s, 9);
    OwnRowsInRange(s, 0, 9);
    hide Sound, InRange;
    assert 0 in ExpiredBins(CheckBase(s, 8));
  }

  lemma OwnBin(s: State, e: nat)
    requires Sound(s) && e in s.data
    ensures s.data[e].time / 60 in s.records && s.data[e].time / 60 in s.index
  {
    assert In(s.records, Record(e, s.data[e].time));
  }

  /** Limit 8, eight events dated 120, one dated 30, a restart: the threshold is 2, yet row 9 is deleted. */
  lemma EvictionTakesNewRow(rows: seq<string>)
    requires |rows| == 8
    ensures var a, b, boot := Add(rows, 120, 120), Add(["i"], 30, 120), Reboot(121);
            && Possible(Initial(), [a, b], SMALL)
            && var w := Exec(Initial(), [a, b], SMALL);
               && Enabled(w, boot, SMALL) && w.s.eidKey - SMALL.max == 2 && 9 in w.s.data
               && 9 !in Next(w, boot, SMALL).s.data
  {
    hide Exec, Possible, Sound, AddBatch, ExpireCheck, TakenByCheck;
    var a, b := Add(rows, 120, 120), Add(["i"], 30, 120);
    NineRows(rows);
    EmptySound();
    AddBatchSound(Empty(), SMALL, rows, 120);
    ExecTwo(Initial(), a, b, SMALL);
    var r := Restart(Exec(Initial(), [a, b], SMALL).s);
    RestartSound(Exec(Initial(), [a, b], SMALL).s);
    OldMinuteTaken(r);
    EvictionAnyOrder(r, 8);
  }
}
