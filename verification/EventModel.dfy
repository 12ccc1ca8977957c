/** The buffered event store of one subscriber: its persisted key families, its in-memory
    fields and what each operation does to them. */
module EventModel {
  import opened EventKeys

  /** A stored row: the time written into it and the rest of its columns. */
  datatype Event = Event(time: nat, columns: string)

  /** One `eid:time` entry of a record list. */
  datatype Record = Record(eid: nat, time: nat)

  /** The persisted watermark of a query. */
  datatype Mark = Mark(time: nat, eid: nat)

  datatype State = State(
    // persisted: data.<eid>, records.60.<bin>, indexes.60, eid, optimize.<q> and optimize_eid.<q>
    data: map<nat, Event>,
    records: map<nat, seq<Record>>,
    index: seq<nat>,
    eidKey: nat,
    marks: map<string, Mark>,
    // in memory
    lastEid: nat,
    expireTime: nat,
    optimizeTime: nat,
    optimizeEid: nat,
    queries: set<string>,
    queryCount: nat,
    minExpiration: nat)

  /** The flags the operations read. */
  datatype Flags = Flags(optimize: bool, expiry: nat, max: nat)

  const WORD := 0x1_0000_0000_0000_0000

  /** Unsigned 64-bit subtraction. */
  function Sub64(a: nat, b: nat): nat
    requires b <= WORD
  {
    if b <= a then a - b else a + WORD - b
  }

  function Floor60(t: nat): nat {
    t - t % 60
  }

  function RecordsAt(records: map<nat, seq<Record>>, bin: nat): seq<Record> {
    if bin in records then records[bin] else []
  }

  // ----- event ids -----

  function IssueEid(s: State): State {
    var last := if s.lastEid == 0 then s.eidKey else s.lastEid;
    var t := if last % 10 == 0 then s.(eidKey := last + 10) else s;
    t.(lastEid := last + 1)
  }

  /** Issue n ids, one after the other. */
  function IssueEids(s: State, n: nat): State {
    if n == 0 then s else IssueEid(IssueEids(s, n - 1))
  }

  // ----- expiry -----

  predicate AllQueriesExecuted(s: State) {
    |s.queries| >= s.queryCount
  }

  /** Range deletion in the store's byte order, both ends included. */
  function DeleteRange(data: map<nat, Event>, lo: nat, hi: nat): map<nat, Event> {
    map e | e in data && !(LexLeq(ToIndex(lo), ToIndex(e)) && LexLeq(ToIndex(e), ToIndex(hi))) :: data[e]
  }

  /** The records still alive after `expire`, in list order. */
  function Persisting(recs: seq<Record>, expire: nat): seq<Record> {
    if recs == [] then []
    else
      var rest := Persisting(recs[..|recs| - 1], expire);
      if recs[|recs| - 1].time <= expire then rest else rest + [recs[|recs| - 1]]
  }

  function ExpiredEids(recs: seq<Record>, expire: nat): set<nat> {
    set r | r in recs && r.time <= expire :: r.eid
  }

  function ExpireRecords(s: State, bin: nat, all: bool): State {
    if !AllQueriesExecuted(s) then s
    else
      var recs := RecordsAt(s.records, bin);
      var data := if all && |recs| > 1 then DeleteRange(s.data, recs[0].eid, recs[|recs| - 1].eid)
                  else s.data - ExpiredEids(recs, s.expireTime);
      var kept := Persisting(recs, s.expireTime);
      var records := if all then s.records - {bin}
                     else if |kept| < |recs| then s.records[bin := kept]
                     else s.records;
      s.(data := data, records := records)
  }

  function Without(bins: seq<nat>, bin: nat): seq<nat> {
    if bins == [] then []
    else
      var rest := Without(bins[..|bins| - 1], bin);
      if bins[|bins| - 1] == bin then rest else rest + [bins[|bins| - 1]]
  }

  /** Expire the given bins and leave their names out of the index list. */
  function ExpireEach(s: State, expirations: seq<nat>): State {
    if expirations == [] then s
    else ExpireRecords(ExpireEach(s, expirations[..|expirations| - 1]), expirations[|expirations| - 1], true)
  }

  function WithoutEach(bins: seq<nat>, expirations: seq<nat>): seq<nat> {
    if expirations == [] then bins
    else Without(WithoutEach(bins, expirations[..|expirations| - 1]), expirations[|expirations| - 1])
  }

  function ExpireIndexes(s: State, bins: seq<nat>, expirations: seq<nat>): State {
    if !AllQueriesExecuted(s) then s
    else ExpireEach(s, expirations).(index := WithoutEach(bins, expirations))
  }

  predicate BinExpired(bin: nat, expire: nat) {
    (bin + 1) * 60 <= expire
  }

  predicate BinPartlyExpired(bin: nat, expire: nat) {
    bin * 60 < expire < (bin + 1) * 60
  }

  function Expirations(bins: seq<nat>, expire: nat): seq<nat> {
    if bins == [] then []
    else
      var rest := Expirations(bins[..|bins| - 1], expire);
      if BinExpired(bins[|bins| - 1], expire) then rest + [bins[|bins| - 1]] else rest
  }

  function ExpirePartial(s: State, bins: seq<nat>): State {
    if bins == [] then s
    else
      var t := ExpirePartial(s, bins[..|bins| - 1]);
      if BinPartlyExpired(bins[|bins| - 1], t.expireTime) then ExpireRecords(t, bins[|bins| - 1], false) else t
  }

  predicate BinSelected(bin: nat, start: nat, stop: nat) {
    bin >= start / 60 && (stop == 0 || bin < stop / 60 + 1)
  }

  function SelectedBins(bins: seq<nat>, start: nat, stop: nat): seq<nat> {
    if bins == [] then []
    else
      var rest := SelectedBins(bins[..|bins| - 1], start, stop);
      if BinSelected(bins[|bins| - 1], start, stop) then rest + [bins[|bins| - 1]] else rest
  }

  /** The effect of `getIndexes` on the store. */
  function Expire(s: State, sort: bool): State {
    var t := if sort then ExpirePartial(s, s.index) else s;
    var expirations := Expirations(s.index, s.expireTime);
    if expirations == [] then t else ExpireIndexes(t, s.index, expirations)
  }

  function Insert(bin: nat, sorted: seq<nat>): seq<nat> {
    if sorted == [] || bin <= sorted[0] then [bin] + sorted else [sorted[0]] + Insert(bin, sorted[1..])
  }

  function Sort(bins: seq<nat>): seq<nat> {
    if bins == [] then [] else Insert(bins[0], Sort(bins[1..]))
  }

  // ----- reading -----

  /** A record is left out when the watermark of the running query already covers it. */
  predicate Skipped(r: Record, optimize: bool, time: nat, eid: nat) {
    optimize && r.time <= (time + 1) % WORD && r.eid <= eid
  }

  function Unseen(recs: seq<Record>, optimize: bool, time: nat, eid: nat): seq<Record> {
    if recs == [] then []
    else
      var rest := Unseen(recs[..|recs| - 1], optimize, time, eid);
      var r := recs[|recs| - 1];
      if Skipped(r, optimize, time, eid) then rest else rest + [r]
  }

  /** `getRecords`: the lists of the given bins, one after the other. */
  function Gather(records: map<nat, seq<Record>>, bins: seq<nat>, optimize: bool, time: nat, eid: nat): seq<Record> {
    if bins == [] then []
    else
      Gather(records, bins[..|bins| - 1], optimize, time, eid) +
      Unseen(RecordsAt(records, bins[|bins| - 1]), optimize, time, eid)
  }

  predicate InWindow(time: nat, start: nat, stop: nat) {
    start <= time && (time <= stop || stop == 0)
  }

  /** The rows of `get`: records inside the window whose data row still exists, as ids in order. */
  function Emit(data: map<nat, Event>, recs: seq<Record>, start: nat, stop: nat): seq<nat> {
    if recs == [] then []
    else
      var rest := Emit(data, recs[..|recs| - 1], start, stop);
      var r := recs[|recs| - 1];
      if InWindow(r.time, start, stop) && r.eid in data then rest + [r.eid] else rest
  }

  function EffectiveExpiry(s: State, flags: Flags): nat {
    if flags.expiry < s.minExpiration then s.minExpiration else flags.expiry
  }

  /** The records `get` works on, after the expiry that `getIndexes` performs. */
  function Fetched(s: State, flags: Flags, start: nat, stop: nat): seq<Record> {
    Gather(Expire(s, true).records, Sort(SelectedBins(s.index, start, stop)), flags.optimize, s.optimizeTime, s.optimizeEid)
  }

  function GetRows(s: State, flags: Flags, start: nat, stop: nat): seq<nat> {
    Emit(Expire(s, true).data, Fetched(s, flags, start, stop), start, stop)
  }

  /** The state after `get`, for the query named `executing` ("" when none is). */
  function Get(s: State, flags: Flags, executing: string, start: nat, stop: nat, now: nat): State
    requires EffectiveExpiry(s, flags) <= WORD
  {
    var t := Expire(s, true);
    var recs := Fetched(s, flags, start, stop);
    var eid := if flags.optimize && recs != [] then recs[|recs| - 1].eid else t.optimizeEid;
    t.(optimizeEid := eid,
       expireTime := if flags.expiry > 0 then Floor60(Sub64(now, EffectiveExpiry(s, flags))) else t.expireTime,
       marks := if flags.optimize && executing != "" then t.marks[executing := Mark(t.optimizeTime, eid)] else t.marks)
  }

  /** The watermark branch of `genTable`, up to the call of `get`. */
  function LoadMark(s: State, executing: string, now: nat): State {
    var m := if executing != "" && executing in s.marks then s.marks[executing] else Mark(0, 0);
    s.(optimizeTime := Sub64(now, 1), optimizeEid := m.eid,
       queries := if executing == "" then s.queries else s.queries + {executing})
  }

  function MarkStart(s: State, executing: string): nat {
    if executing != "" && executing in s.marks then s.marks[executing].time else 0
  }

  function MarkEid(s: State, q: string): nat {
    if q != "" && q in s.marks then s.marks[q].eid else 0
  }

  function RunState(s: State, flags: Flags, executing: string, now: nat): State
    requires EffectiveExpiry(s, flags) <= WORD
  {
    Get(LoadMark(s, executing, now), flags, executing, MarkStart(s, executing), 0, now)
  }

  function RunRows(s: State, flags: Flags, executing: string, now: nat): seq<nat> {
    GetRows(LoadMark(s, executing, now), flags, MarkStart(s, executing), 0)
  }

  // ----- adding -----

  /** n consecutive ids. */
  function EidRange(first: nat, n: nat): (r: seq<nat>)
    ensures |r| == n && forall i :: 0 <= i < n ==> r[i] == first + i
  {
    if n == 0 then [] else EidRange(first, n - 1) + [first + n - 1]
  }

  function NewRecords(eids: seq<nat>, time: nat): (r: seq<Record>)
    ensures |r| == |eids| && forall i :: 0 <= i < |eids| ==> r[i] == Record(eids[i], time)
  {
    if eids == [] then [] else NewRecords(eids[..|eids| - 1], time) + [Record(eids[|eids| - 1], time)]
  }

  function RecordEvents(s: State, eids: seq<nat>, time: nat): State {
    if eids == [] then s
    else
      var bin := time / 60;
      var prior := RecordsAt(s.records, bin);
      s.(records := s.records[bin := prior + NewRecords(eids, time)],
         index := if prior == [] then s.index + [bin] else s.index)
  }

  function StoreRows(data: map<nat, Event>, first: nat, rows: seq<string>, time: nat): map<nat, Event> {
    if rows == [] then data
    else StoreRows(data, first, rows[..|rows| - 1], time)[first + |rows| - 1 := Event(time, rows[|rows| - 1])]
  }

  /** Overflow: forget every row below the threshold id. */
  function Evict(s: State, threshold: nat): map<nat, Event> {
    map e | e in s.data && e >= threshold :: s.data[e]
  }

  /** `expireCheck`: eviction by id, then index expiry at the time of the threshold row. */
  function ExpireCheck(s: State, max: nat): State
    requires max <= WORD
  {
    if |s.data| <= max then s
    else
      var threshold := Sub64(s.eidKey, max);
      var t := s.(data := Evict(s, threshold));
      if threshold !in t.data then t
      else
        var time := t.data[threshold].time;
        Expire(if time > 0 then t.(expireTime := Floor60(time)) else t, false)
  }

  function FirstEid(s: State): nat {
    (if s.lastEid == 0 then s.eidKey else s.lastEid) + 1
  }

  const CHECKPOINT := 256

  function Issued(s: State, flags: Flags, n: nat): State
    requires flags.max <= WORD
  {
    var t := IssueEids(s, n);
    if t.lastEid % CHECKPOINT == 0 then ExpireCheck(t, flags.max) else t
  }

  /** `addBatch` on serializable rows; an empty batch is refused. */
  function AddBatch(s: State, flags: Flags, rows: seq<string>, time: nat): State
    requires flags.max <= WORD
  {
    if rows == [] then s
    else
      var first := FirstEid(s);
      var t := Issued(s, flags, |rows|);
      RecordEvents(t.(data := StoreRows(t.data, first, rows, time)),
                   EidRange(first, |rows|), time)
  }

  /** The expiry part of `configUpdate`, for a subscriber that some scheduled query reads. */
  function Configure(s: State, maxInterval: nat, count: nat): State {
    var m := 3 * maxInterval;
    s.(minExpiration := m + (60 - m % 60), queryCount := count, queries := {})
  }

  /** A new process: only the persisted part survives. */
  function Restart(s: State): State {
    s.(lastEid := 0, expireTime := 0, optimizeTime := 0, optimizeEid := 0,
       queries := {}, queryCount := 0, minExpiration := 0)
  }

  function Empty(): State {
    State(map[], map[], [], 0, map[], 0, 0, 0, 0, {}, 0, 0)
  }
}
