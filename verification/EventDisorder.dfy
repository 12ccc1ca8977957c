/** The event store when events are dated in any order: what every operation still keeps, what reads
    return, and how expiry goes wrong. */
module EventDisorder {
  import opened EventKeys
  import opened EventModel
  import opened EventInvariant
  import opened EventEviction
  import opened EventReads

  // ----- what every operation keeps -----

  lemma SweptFrame(s: State)
    ensures var t := Swept(s);
            && (forall r :: In(t.records, r) ==> In(s.records, r))
            && (forall e :: e in t.data ==> e in s.data && t.data[e] == s.data[e])
            && (forall b :: b in t.index ==> b in s.index)
            && t == s.(data := t.data, records := t.records, index := t.index)
  {
    DroppedRecords(s.records, ExpiredBins(s));
    ExcludingContents(s.index, ExpiredBins(s));
  }

  lemma EvictedSound(s: State, threshold: nat, expire: nat)
    requires Sound(s) && expire % 60 == 0
    ensures Sound(s.(data := Evict(s, threshold), expireTime := expire))
  {
  }

  /** The state in which `expireCheck` may go on to an index query. */
  function CheckBase(s: State, max: nat): State
    requires max <= WORD && |s.data| > max
  {
    var k := Sub64(s.eidKey, max);
    s.(data := Evict(s, k),
       expireTime := if k in s.data && s.data[k].time > 0 then Floor60(s.data[k].time) else s.expireTime)
  }

  lemma ExpireCheckIs(s: State, max: nat)
    requires max <= WORD
    ensures |s.data| <= max ==> ExpireCheck(s, max) == s
    ensures |s.data| > max ==>
              ExpireCheck(s, max) ==
              if Sub64(s.eidKey, max) in s.data then Expire(CheckBase(s, max), false) else CheckBase(s, max)
  {
    hide Expire;
  }

  /** Rows and records only disappear, and neither ids nor watermarks change. */
  ghost predicate Shrinks(s: State, t: State) {
    && (forall r :: In(t.records, r) ==> In(s.records, r))
    && (forall e :: e in t.data ==> e in s.data && t.data[e] == s.data[e])
    && t == s.(data := t.data, records := t.records, index := t.index, expireTime := t.expireTime)
  }

  lemma CheckBaseShrinks(s: State, max: nat)
    requires Sound(s) && max <= WORD && |s.data| > max
    ensures Sound(CheckBase(s, max)) && Shrinks(s, CheckBase(s, max))
  {
    SoundNumbers(s);
    hide Sound, In;
    EvictedSound(s, Sub64(s.eidKey, max), CheckBase(s, max).expireTime);
  }

  lemma SweptShrinks(s: State)
    requires Sound(s)
    ensures Sound(Expire(s, false)) && Shrinks(s, Expire(s, false))
  {
    hide Sound, Expire, Swept, In;
    ExpirySweeps(s, false);
    SweptFrame(s);
  }

  lemma ExpireCheckSound(s: State, max: nat)
    requires Sound(s) && max <= WORD
    ensures Sound(ExpireCheck(s, max)) && Shrinks(s, ExpireCheck(s, max))
  {
    hide Sound, ExpireCheck, Expire, CheckBase, In;
    ExpireCheckIs(s, max);
    if |s.data| > max {
      CheckBaseShrinks(s, max);
      SweptShrinks(CheckBase(s, max));
    }
  }

  /** The index query that follows an eviction takes the row with the key range of an older minute. */
  ghost predicate TakenByCheck(s: State, max: nat, e: nat)
    requires max <= WORD && |s.data| > max
  {
    && Sub64(s.eidKey, max) in s.data && AllQueriesExecuted(s)
    && Taken(s.records, ExpiredBins(CheckBase(s, max)), e)
  }

  lemma CheckedRow(s: State, max: nat, e: nat)
    requires Sound(s) && max <= WORD && |s.data| > max && max < s.eidKey
    ensures e in ExpireCheck(s, max).data <==> e in s.data && e >= s.eidKey - max && !TakenByCheck(s, max, e)
  {
    hide Sound, ExpireCheck, Expire, In, Taken, ExpiredBins;
    var base := CheckBase(s, max);
    ExpireCheckIs(s, max);
    CheckBaseShrinks(s, max);
    ExpirySweeps(base, false);
  }

  /** Overflow eviction in any order of dates: the threshold does not underflow, no row below it stays, at
      most max + 1 rows remain, and a row from the threshold on stays exactly when the index query that
      follows does not take it with the key range of an older minute. */
  lemma EvictionAnyOrder(s: State, max: nat)
    requires Sound(s) && max <= WORD && |s.data| > max
    ensures max < s.eidKey
    ensures var t := ExpireCheck(s, max);
            && (forall e :: e in t.data <==> e in s.data && e >= s.eidKey - max && !TakenByCheck(s, max, e))
            && (forall e :: e in t.data ==> t.data[e] == s.data[e])
            && |t.data| <= max + 1
  {
    hide ExpireCheck, TakenByCheck, In;
    ThresholdDoesNotUnderflow(s, max);
    SoundRows(s);
    assert Top(s) <= s.eidKey;
    hide Sound;
    ExpireCheckSound(s, max);
    var t := ExpireCheck(s, max);
    forall e: nat
      ensures e in t.data <==> e in s.data && e >= s.eidKey - max && !TakenByCheck(s, max, e)
    {
      CheckedRow(s, max, e);
    }
    RangeSize(t.data.Keys, s.eidKey - max, s.eidKey);
    assert |t.data.Keys| == |t.data|;
  }

  lemma IssueEidsSound(s: State, n: nat)
    requires Sound(s) && Top(s) + n < EID_BOUND
    ensures Sound(IssueEids(s, n))
  {
    IssueEidsIs(s, n);
  }

  lemma IssuedSound(s: State, flags: Flags, n: nat)
    requires Sound(s) && flags.max <= WORD && Top(s) + n < EID_BOUND
    ensures var t := Issued(s, flags, n);
            && Sound(t) && Top(t) == Top(s) + n
            && Shrinks(s.(eidKey := t.eidKey, lastEid := t.lastEid), t)
            && (n > 0 ==> t.lastEid == Top(s) + n)
  {
    SoundNumbers(s);
    hide Sound, ExpireCheck, In;
    IssueEidsSound(s, n);
    IssueEidsIs(s, n);
    ExpireCheckSound(IssueEids(s, n), flags.max);
  }

  lemma GrowingList(records: map<nat, seq<Record>>, b: nat)
    requires Growing(records)
    ensures EidsIncreasing(RecordsAt(records, b))
  {
  }

  lemma GrowingFrom(records: map<nat, seq<Record>>)
    requires forall b :: b in records ==> EidsIncreasing(records[b])
    ensures Growing(records)
  {
  }

  lemma NewIncreasing(first: nat, n: nat, time: nat)
    ensures EidsIncreasing(NewRecords(EidRange(first, n), time))
    ensures forall r :: r in NewRecords(EidRange(first, n), time) ==> r.eid >= first
  {
  }

  lemma PriorIds(records: map<nat, seq<Record>>, bin: nat, first: nat)
    requires Lists(records) && AllBefore(records, first)
    ensures forall r :: r in RecordsAt(records, bin) ==> r.eid < first
  {
    forall r | r in RecordsAt(records, bin)
      ensures r.eid < first
    {
      assert In(records, r);
    }
  }

  lemma AppendedGrowing(records: map<nat, seq<Record>>, first: nat, n: nat, time: nat)
    requires Lists(records) && Growing(records) && AllBefore(records, first)
    ensures Growing(records[time / 60 := RecordsAt(records, time / 60) + NewRecords(EidRange(first, n), time)])
  {
    hide Lists, AllBefore, NewRecords, EidRange, Growing, EidsIncreasing;
    var prior, news := RecordsAt(records, time / 60), NewRecords(EidRange(first, n), time);
    GrowingList(records, time / 60);
    PriorIds(records, time / 60, first);
    NewIncreasing(first, n, time);
    ConcatIncreasing(prior, news);
    var after: map<nat, seq<Record>> := records[time / 60 := prior + news];
    forall b | b in after
      ensures EidsIncreasing(after[b])
    {
      GrowingList(records, b);
    }
    GrowingFrom(after);
  }

  lemma RecordedSound(u: State, first: nat, rows: seq<string>, time: nat)
    requires Sound(u) && rows != [] && u.lastEid == first + |rows| - 1 && AllBefore(u.records, first) && first >= 1
    ensures var t := RecordEvents(u.(data := StoreRows(u.data, first, rows, time)), EidRange(first, |rows|), time);
            Sound(t) && t == u.(data := StoreRows(u.data, first, rows, time), records := t.records, index := t.index)
  {
    hide Sound, Indexed, Growing, In, AllBefore, StoreRows, RecordEvents, Lists;
    SoundLists(u);
    var s, eids := u.(data := StoreRows(u.data, first, rows, time)), EidRange(first, |rows|);
    var t := RecordEvents(s, eids, time);
    RecordEventsIndexed(u, first, rows, time);
    AppendedGrowing(u.records, first, |rows|, time);
    RecordsWritten(s, eids, time);
    SoundAgain(u, t);
  }

  lemma SoundLists(u: State)
    requires Sound(u)
    ensures Indexed(u.data, u.records, u.index) && Lists(u.records) && Growing(u.records)
  {
  }

  lemma SoundAgain(u: State, t: State)
    requires Sound(u) && Indexed(t.data, t.records, t.index) && Growing(t.records)
    requires t.lastEid == u.lastEid > 0 && t.eidKey == u.eidKey && t.expireTime == u.expireTime
    requires forall r :: In(t.records, r) ==> In(u.records, r) || 1 <= r.eid <= u.lastEid
    ensures Sound(t)
  {
    hide Indexed, Growing, In;
  }

  lemma BeforeTop(s: State, t: State)
    requires Sound(s) && forall r :: In(t.records, r) ==> In(s.records, r)
    ensures AllBefore(t.records, Top(s) + 1)
  {
  }

  /** A batch dated anyhow keeps the store sound, takes new ids and changes no older row. */
  lemma AddBatchSound(s: State, flags: Flags, rows: seq<string>, time: nat)
    requires Sound(s) && flags.max <= WORD && Top(s) + |rows| < EID_BOUND
    ensures var t := AddBatch(s, flags, rows, time);
            && Sound(t) && Top(t) == Top(s) + |rows| && t.marks == s.marks && t.optimizeTime == s.optimizeTime
            && (forall e :: e in t.data && e <= Top(s) ==> e in s.data && t.data[e] == s.data[e])
            && (forall e :: e in t.data && e > Top(s) ==> t.data[e].time == time)
  {
    hide Sound, In;
    if rows != [] {
      hide Issued, RecordEvents, StoreRows, EidRange, AllBefore;
      var u := Issued(s, flags, |rows|);
      IssuedSound(s, flags, |rows|);
      BeforeTop(s, u);
      assert FirstEid(s) == Top(s) + 1;
      RecordedSound(u, FirstEid(s), rows, time);
      NewRowsOnTop(u.data, Top(s), rows, time);
      SoundRows(s);
    } else {
      SoundRows(s);
    }
  }

  lemma NewRowsOnTop(data: map<nat, Event>, top: nat, rows: seq<string>, time: nat)
    ensures var d := StoreRows(data, top + 1, rows, time);
            && (forall e :: e in d && e <= top ==> e in data && d[e] == data[e])
            && (forall e :: e in d && e > top ==> d[e].time == time || e in data)
  {
    StoredRows(data, top + 1, rows, time);
  }

  lemma TakenSame(s: State, t: State, max: nat, e: nat)
    requires max <= WORD && |s.data| > max && t == s.(lastEid := t.lastEid)
    ensures TakenByCheck(s, max, e) <==> TakenByCheck(t, max, e)
  {
    assert CheckBase(t, max) == CheckBase(s, max).(lastEid := t.lastEid);
    assert ExpiredBins(CheckBase(t, max)) == ExpiredBins(CheckBase(s, max));
  }

  lemma {:induction false} StoredCount(data: map<nat, Event>, first: nat, rows: seq<string>, time: nat)
    ensures |StoreRows(data, first, rows, time)| <= |data| + |rows|
  {
    if rows != [] {
      var init := rows[..|rows| - 1];
      StoredCount(data, first, init, time);
      var d, e := StoreRows(data, first, init, time), first + |rows| - 1;
      var v := Event(time, rows[|rows| - 1]);
      assert d[e := v].Keys == d.Keys + {e};
      assert |d.Keys| == |d| && |d[e := v].Keys| == |d[e := v]|;
    }
  }

  /** The state a batch finds when its rows are about to be stored: checked if its last id is a multiple of 256. */
  lemma BatchFinds(s: State, flags: Flags, rows: seq<string>, time: nat)
    requires Sound(s) && flags.max <= WORD && rows != [] && Top(s) + |rows| < EID_BOUND
    ensures var t, n := AddBatch(s, flags, rows, time), |rows|;
            var v := s.(eidKey := t.eidKey, lastEid := Top(s) + n);
            && Sound(v)
            && t.data == StoreRows(if (Top(s) + n) % 256 == 0 then ExpireCheck(v, flags.max).data else s.data, Top(s) + 1, rows, time)
  {
    hide Sound, ExpireCheck, StoreRows, EidRange, NewRecords, In;
    SoundNumbers(s);
    var n := |rows|;
    IssueEidsIs(s, n);
    IssueEidsSound(s, n);
    var i := IssueEids(s, n);
    hide IssueEids;
    ExpireCheckSound(i, flags.max);
    assert FirstEid(s) == Top(s) + 1;
    RowsWritten(s, flags, rows, time);
  }

  lemma RowsWritten(s: State, flags: Flags, rows: seq<string>, time: nat)
    requires flags.max <= WORD && rows != []
    ensures var t, u := AddBatch(s, flags, rows, time), Issued(s, flags, |rows|);
            t.data == StoreRows(u.data, FirstEid(s), rows, time) && t.eidKey == u.eidKey
  {
    hide Issued, StoreRows, EidRange, NewRecords;
  }

  /** What a batch leaves behind, row by row and for any dates: its own rows, and the rows before it unless its last id
      is a multiple of 256 and the buffer held more than the limit; then those below the threshold go, and those
      the index query takes. */
  lemma AddBatchRows(s: State, flags: Flags, rows: seq<string>, time: nat, e: nat)
    requires Sound(s) && flags.max <= WORD && rows != [] && Top(s) + |rows| < EID_BOUND
    ensures var t, top, n := AddBatch(s, flags, rows, time), Top(s), |rows|;
            var evicts := (top + n) % 256 == 0 && |s.data| > flags.max;
            && (evicts ==> flags.max < t.eidKey)
            && (e in t.data <==>
                  top < e <= top + n ||
                  (e in s.data && (evicts ==> e >= t.eidKey - flags.max && !TakenByCheck(s.(eidKey := t.eidKey), flags.max, e))))
            && (e in t.data ==> t.data[e] == if e > top then Event(time, rows[e - top - 1]) else s.data[e])
  {
    hide Sound, AddBatch, ExpireCheck, StoreRows, In, TakenByCheck;
    var t, top, n := AddBatch(s, flags, rows, time), Top(s), |rows|;
    SoundRows(s);
    BatchFinds(s, flags, rows, time);
    var v := s.(eidKey := t.eidKey, lastEid := top + n);
    StoredRows(if (top + n) % 256 == 0 then ExpireCheck(v, flags.max).data else s.data, top + 1, rows, time);
    ExpireCheckSound(v, flags.max);
    if |s.data| > flags.max {
      TakenSame(s.(eidKey := t.eidKey), v, flags.max, e);
      EvictionAnyOrder(v, flags.max);
    } else {
      ExpireCheckIs(v, flags.max);
    }
  }

  /** How many rows a batch leaves. */
  lemma AddBatchCount(s: State, flags: Flags, rows: seq<string>, time: nat)
    requires Sound(s) && flags.max <= WORD && rows != [] && Top(s) + |rows| < EID_BOUND
    ensures var t := AddBatch(s, flags, rows, time);
            && |t.data| <= |s.data| + |rows|
            && ((Top(s) + |rows|) % 256 == 0 ==> |t.data| <= flags.max + 1 + |rows|)
  {
    hide Sound, AddBatch, ExpireCheck, StoreRows;
    var t, n := AddBatch(s, flags, rows, time), |rows|;
    BatchFinds(s, flags, rows, time);
    var v := s.(eidKey := t.eidKey, lastEid := Top(s) + n);
    CheckedCount(v, flags.max);
    StoredCount(if (Top(s) + n) % 256 == 0 then ExpireCheck(v, flags.max).data else s.data, Top(s) + 1, rows, time);
  }

  lemma CheckedCount(s: State, max: nat)
    requires Sound(s) && max <= WORD
    ensures var left := ExpireCheck(s, max).data; |left| <= max + 1 && |left| <= |s.data|
  {
    hide Sound, ExpireCheck, TakenByCheck, In;
    ExpireCheckIs(s, max);
    ExpireCheckSound(s, max);
    SmallerStore(s.data, ExpireCheck(s, max).data);
    if |s.data| > max {
      EvictionAnyOrder(s, max);
    }
  }

  lemma SmallerStore(data: map<nat, Event>, left: map<nat, Event>)
    requires forall e :: e in left ==> e in data
    ensures |left| <= |data|
  {
    KeysWithin(left.Keys, data.Keys);
    assert |left| == |left.Keys| && |data| == |data.Keys|;
  }

  lemma {:induction false} KeysWithin(a: set<nat>, b: set<nat>)
    requires a <= b
    ensures |a| <= |b|
  {
    if a != {} {
      var x :| x in a;
      KeysWithin(a - {x}, b - {x});
    }
  }

  lemma SoundIgnores(s: State, t: State)
    requires Sound(s) && t.expireTime % 60 == 0
    requires t.data == s.data && t.records == s.records && t.index == s.index
    requires t.eidKey == s.eidKey && t.lastEid == s.lastEid
    ensures Sound(t)
  {
  }

  /** A read of any window in any mode keeps the store sound. */
  lemma GetSound(s: State, flags: Flags, executing: string, start: nat, stop: nat, now: nat)
    requires Sound(s) && EffectiveExpiry(s, flags) <= WORD
    ensures Sound(Get(s, flags, executing, start, stop, now))
  {
    SoundNumbers(s);
    hide Sound, Expire, Fetched, Swept;
    ExpirySweeps(s, true);
    SweptFrame(s);
    SoundIgnores(Swept(s), Get(s, flags, executing, start, stop, now));
  }

  lemma LoadMarkSound(s: State, q: string, now: nat)
    requires Sound(s)
    ensures Sound(LoadMark(s, q, now))
  {
    SoundNumbers(s);
    hide Sound;
    SoundIgnores(s, LoadMark(s, q, now));
  }

  lemma ConfigureSound(s: State, maxInterval: nat, count: nat)
    requires Sound(s)
    ensures Sound(Configure(s, maxInterval, count))
  {
    SoundNumbers(s);
    hide Sound;
    SoundIgnores(s, Configure(s, maxInterval, count));
  }

  lemma RestartSound(s: State)
    requires Sound(s) && s.eidKey < EID_BOUND
    ensures Sound(Restart(s)) && Top(s) <= Top(Restart(s))
  {
  }

  // ----- what reads return -----

  /** A window read emits exactly the rows of the window that expiry left, each once. */
  lemma WindowAgrees(s: State, flags: Flags, start: nat, stop: nat)
    requires Sound(s) && !flags.optimize
    ensures Agree(GetRows(s, flags, start, stop), Expire(s, true).data, start, stop)
  {
    ExpirySweeps(s, true);
    SweptFrame(s);
    SoundParts(s);
    SoundParts(Swept(s));
    hide Sound, Expire, Swept, GetRows, Agree;
    ReadAgrees(s, flags, start, stop);
  }

  lemma SoundParts(s: State)
    requires Sound(s)
    ensures Indexed(s.data, s.records, s.index) && Distinct(s.index) && Lists(s.records)
    ensures RowsRecorded(s.data, s.records) && OneRecordEach(s.records)
    ensures forall b :: b in s.records <==> b in s.index
  {
  }

  /** A read without upper bound gathers what is left of the bins from `start` on. */
  lemma OpenReadTakes(l: State, flags: Flags, start: nat)
    requires Sound(l)
    ensures forall r :: r in Fetched(l, flags, start, 0) <==>
                        In(Expire(l, true).records, r) && r.time / 60 >= start / 60 &&
                        !Skipped(r, flags.optimize, l.optimizeTime, l.optimizeEid)
  {
    ExpirySweeps(l, true);
    SweptFrame(l);
    SoundParts(l);
    SoundParts(Swept(l));
    hide Sound, Swept, Expire, Sort, SelectedBins, Skipped, Gather, Lists;
    var selected := SelectedBins(l.index, start, 0);
    SelectedAre(l.index, start, 0);
    SortSorts(selected);
    GatherAre(Expire(l, true).records, Sort(selected), flags.optimize, l.optimizeTime, l.optimizeEid);
  }

  lemma ReturnsWhen(t: State, recs: seq<Record>, start: nat, now: nat, mark: nat, e: nat)
    requires RowsRecorded(t.data, t.records) && OneRecordEach(t.records)
    requires forall r :: r in recs <==> In(t.records, r) && r.time / 60 >= start / 60 && (r.time > now || r.eid > mark)
    ensures Emits(t.data, recs, start, 0, e) <==>
            e in t.data && t.data[e].time >= start && (t.data[e].time > now || e > mark)
  {
    if e in t.data {
      var r := Record(e, t.data[e].time);
      assert In(t.records, r);
      if r.time >= start && (r.time > now || e > mark) {
        assert r in recs;
      }
      forall i | 0 <= i < |recs| && recs[i].eid == e
        ensures recs[i] == r
      {
        assert recs[i] in recs;
      }
    }
  }

  /** What a watermark run returns, however the events are dated: a row above the watermark exactly when
      it is not dated before the second ahead of the query's last read, and a row at or below the
      watermark exactly when it is dated in the future. */
  lemma RunReturns(s: State, flags: Flags, q: string, now: nat, e: nat)
    requires Sound(s) && flags.optimize && 1 <= now < WORD
    ensures var t := Expire(LoadMark(s, q, now), true);
            e in RunRows(s, flags, q, now) <==>
            e in t.data && t.data[e].time >= MarkStart(s, q) && (t.data[e].time > now || e > MarkEid(s, q))
  {
    hide Sound, Fetched, Expire, Swept, Emit, Emits, RowsRecorded, OneRecordEach, In, MarkStart;
    var l, start := LoadMark(s, q, now), MarkStart(s, q);
    LoadMarkSound(s, q, now);
    ExpirySweeps(l, true);
    var t := Expire(l, true);
    OpenReadTakes(l, flags, start);
    SoundParts(t);
    var recs := Fetched(l, flags, start, 0);
    EmitAre(t.data, recs, start, 0, e);
    ReturnsWhen(t, recs, start, now, MarkEid(s, q), e);
  }

  // ----- what the watermark becomes -----

  /** Not of a later minute, and with no larger id if of the same one. */
  predicate NotAfter(r: Record, last: Record) {
    r.time / 60 < last.time / 60 || (r.time / 60 == last.time / 60 && r.eid <= last.eid)
  }

  ghost predicate EndsLatest(recs: seq<Record>) {
    recs != [] ==> forall r :: r in recs ==> NotAfter(r, recs[|recs| - 1])
  }

  lemma LastOfMinute(list: seq<Record>, bin: nat)
    requires EidsIncreasing(list) && forall r :: r in list ==> r.time / 60 == bin
    ensures EndsLatest(list)
  {
    if list != [] {
      assert list[|list| - 1] in list;
    }
  }

  lemma LaterMinuteWins(a: seq<Record>, b: seq<Record>, bin: nat)
    requires EndsLatest(a) && EndsLatest(b)
    requires (forall r :: r in a ==> r.time / 60 < bin) && (forall r :: r in b ==> r.time / 60 == bin)
    ensures EndsLatest(a + b)
  {
    if b == [] {
      assert a + b == a;
    } else {
      assert b[|b| - 1] in b && (a + b)[|a + b| - 1] == b[|b| - 1];
    }
  }

  lemma MinuteList(records: map<nat, seq<Record>>, bin: nat)
    requires Lists(records) && Growing(records)
    ensures EidsIncreasing(RecordsAt(records, bin)) && forall r :: r in RecordsAt(records, bin) ==> r.time / 60 == bin
  {
  }

  /** Records gathered minute by minute end with the last id of the latest minute among them. */
  lemma {:induction false} GatherEndsLatest(records: map<nat, seq<Record>>, bins: seq<nat>, optimize: bool, time: nat, eid: nat)
    requires Lists(records) && Growing(records) && Increasing(bins)
    ensures EndsLatest(Gather(records, bins, optimize, time, eid))
  {
    if bins != [] {
      hide EndsLatest, Growing, EidsIncreasing;
      var init, last := bins[..|bins| - 1], bins[|bins| - 1];
      GatherEndsLatest(records, init, optimize, time, eid);
      GatherAre(records, init, optimize, time, eid);
      MinuteList(records, last);
      UnseenAre(RecordsAt(records, last), optimize, time, eid);
      var a, b := Gather(records, init, optimize, time, eid), Unseen(RecordsAt(records, last), optimize, time, eid);
      LastOfMinute(b, last);
      LaterMinuteWins(a, b, last);
    } else {
      assert Gather(records, bins, optimize, time, eid) == [];
    }
  }

  /** The records a run of q gathers: those left by expiry, from the minute of its last read on, that its
      watermark does not cover. */
  ghost predicate Gathered(s: State, q: string, now: nat, r: Record) {
    && In(Expire(LoadMark(s, q, now), true).records, r) && r.time / 60 >= MarkStart(s, q) / 60
    && (r.time > now || r.eid > MarkEid(s, q))
  }

  lemma FetchedEndsLatest(l: State, flags: Flags, start: nat)
    requires Sound(l)
    ensures EndsLatest(Fetched(l, flags, start, 0))
  {
    ExpirySweeps(l, true);
    SoundParts(l);
    SoundLists(Swept(l));
    hide Sound, Swept, Expire, Sort, SelectedBins, Gather, Lists, Growing, EndsLatest;
    var selected := SelectedBins(l.index, start, 0);
    SelectedAre(l.index, start, 0);
    SortSorts(selected);
    GatherEndsLatest(Expire(l, true).records, Sort(selected), flags.optimize, l.optimizeTime, l.optimizeEid);
  }

  lemma RunGathers(s: State, flags: Flags, q: string, now: nat)
    requires Sound(s) && flags.optimize && 1 <= now < WORD
    ensures var recs := Fetched(LoadMark(s, q, now), flags, MarkStart(s, q), 0);
            EndsLatest(recs) && forall r :: r in recs <==> Gathered(s, q, now, r)
  {
    hide Sound, Fetched, Expire, In, EndsLatest, MarkStart;
    LoadMarkSound(s, q, now);
    OpenReadTakes(LoadMark(s, q, now), flags, MarkStart(s, q));
    FetchedEndsLatest(LoadMark(s, q, now), flags, MarkStart(s, q));
  }

  lemma MarkWritten(s: State, flags: Flags, q: string, now: nat)
    requires Sound(s) && flags.optimize && q != "" && 1 <= now < WORD && EffectiveExpiry(s, flags) <= WORD
    ensures var recs, n := Fetched(LoadMark(s, q, now), flags, MarkStart(s, q), 0), RunState(s, flags, q, now);
            q in n.marks && n.marks[q] == Mark(now - 1, if recs != [] then recs[|recs| - 1].eid else MarkEid(s, q))
  {
    hide Sound, Expire, Fetched, Swept;
    var l := LoadMark(s, q, now);
    LoadMarkSound(s, q, now);
    ExpirySweeps(l, true);
    SweptFrame(l);
  }

  /** What the watermark of q becomes, however the events are dated: its time is the second before the read; its
      id is the last one of the latest minute the read gathered, be it smaller than ids returned, or
      unchanged if the read gathered nothing. */
  lemma RunMarks(s: State, flags: Flags, q: string, now: nat)
    requires Sound(s) && flags.optimize && q != "" && 1 <= now < WORD && EffectiveExpiry(s, flags) <= WORD
    ensures var n := RunState(s, flags, q, now);
            && q in n.marks && n.marks[q].time == now - 1
            && ((forall r :: !Gathered(s, q, now, r)) ==> n.marks[q].eid == MarkEid(s, q))
            && ((exists r :: Gathered(s, q, now, r)) ==>
                  exists last :: Gathered(s, q, now, last) && n.marks[q].eid == last.eid &&
                                 forall r :: Gathered(s, q, now, r) ==> NotAfter(r, last))
  {
    hide Sound, Fetched, RunState, Gathered, MarkEid, NotAfter;
    RunGathers(s, flags, q, now);
    MarkWritten(s, flags, q, now);
    var recs := Fetched(LoadMark(s, q, now), flags, MarkStart(s, q), 0);
    if recs != [] {
      var last := recs[|recs| - 1];
      assert last in recs;
      assert Gathered(s, q, now, last);
    }
  }

  // ----- when rows go -----

  /** A read puts the expiry time at the last full minute before the clock minus the longer of the two
      expirations; with expiry switched off it stays. */
  lemma ReadMovesExpiry(s: State, flags: Flags, q: string, start: nat, stop: nat, now: nat)
    requires Sound(s) && flags.expiry <= now < WORD && s.minExpiration <= now
    ensures var x := Get(s, flags, q, start, stop, now).expireTime;
            var kept := if flags.expiry < s.minExpiration then s.minExpiration else flags.expiry;
            && (flags.expiry == 0 ==> x == s.expireTime)
            && (flags.expiry > 0 ==> x % 60 == 0 && x <= now - kept < x + 60)
  {
    hide Sound, Expire, Get, Swept;
    ExpirySweeps(s, true);
    SweptFrame(s);
    GetShape(s, flags, q, start, stop, now);
  }

  /** With all queries executed, an index query removes every row dated before the expiry time, in any
      order of dates. */
  lemma ExpiredRowGoes(s: State, e: nat)
    requires Sound(s) && AllQueriesExecuted(s) && e in s.data && s.data[e].time < s.expireTime
    ensures e !in Expire(s, true).data
  {
    var b := s.data[e].time / 60;
    assert In(s.records, Record(e, s.data[e].time));
    SoundNumbers(s);
    NoPartialBin(b, s.expireTime);
    assert b in ExpiredBins(s);
    OwnRowsInRange(s, b, e);
    assert Taken(s.records, ExpiredBins(s), e);
    hide Sound, Expire, Taken;
    ExpirySweeps(s, true);
  }

  /** Rows do not outlive their expiration by more than a minute and a read: what is older than that at one read
      is gone after the next one that finds all queries executed. */
  lemma OldRowGoes(s: State, flags: Flags, q: string, start: nat, stop: nat, now: nat, e: nat)
    requires Sound(s) && 0 < flags.expiry <= now < WORD && s.minExpiration <= now && AllQueriesExecuted(s)
    requires var t := Get(s, flags, q, start, stop, now);
             e in t.data && t.data[e].time + 60 + (if flags.expiry < s.minExpiration then s.minExpiration else flags.expiry) <= now
    ensures e !in Expire(Get(s, flags, q, start, stop, now), true).data
  {
    hide Sound, Expire, Get, Swept;
    ReadMovesExpiry(s, flags, q, start, stop, now);
    GetSound(s, flags, q, start, stop, now);
    ExpirySweeps(s, true);
    SweptFrame(s);
    GetShape(s, flags, q, start, stop, now);
    ExpiredRowGoes(Get(s, flags, q, start, stop, now), e);
  }

  /** The first read after a restart removes nothing: the expiry time is not persisted. */
  lemma RestartForgetsExpiry(s: State)
    requires Sound(s) && s.eidKey < EID_BOUND
    ensures Expire(Restart(s), true).data == s.data
  {
    hide Sound, Expire;
    RestartSound(s);
    ExpirySweeps(Restart(s), true);
    assert ExpiredBins(Restart(s)) == {};
  }

  // ----- how expiry goes wrong -----

  /** The store after one more row, far from the end of an id block and from a checkpoint. */
  function OneMore(s: State, row: string, time: nat): State {
    var e, prior := s.lastEid + 1, RecordsAt(s.records, time / 60);
    s.(data := s.data[e := Event(time, row)], records := s.records[time / 60 := prior + [Record(e, time)]],
       index := if prior == [] then s.index + [time / 60] else s.index,
       eidKey := if s.lastEid == 0 then 10 else s.eidKey, lastEid := e)
  }

  lemma OneRow(data: map<nat, Event>, e: nat, rows: seq<string>, time: nat)
    requires |rows| == 1
    ensures StoreRows(data, e, rows, time) == data[e := Event(time, rows[0])]
    ensures NewRecords(EidRange(e, 1), time) == [Record(e, time)]
  {
    assert rows[..0] == [];
    assert EidRange(e, 1)[0] == e && NewRecords(EidRange(e, 1), time)[0] == Record(e, time);
  }

  lemma OneIssued(s: State, flags: Flags)
    requires flags.max <= WORD && (0 < s.lastEid < 9 || (s.lastEid == 0 && s.eidKey == 0))
    ensures Issued(s, flags, 1) == s.(eidKey := if s.lastEid == 0 then 10 else s.eidKey, lastEid := s.lastEid + 1)
    ensures FirstEid(s) == s.lastEid + 1
  {
    hide ExpireCheck;
    assert IssueEids(s, 0) == s;
  }

  lemma AddOne(s: State, flags: Flags, rows: seq<string>, time: nat)
    requires flags.max <= WORD && (0 < s.lastEid < 9 || (s.lastEid == 0 && s.eidKey == 0)) && |rows| == 1
    ensures AddBatch(s, flags, rows, time) == OneMore(s, rows[0], time)
  {
    hide StoreRows, NewRecords, EidRange, Issued, FirstEid;
    OneRow(s.data, s.lastEid + 1, rows, time);
    OneIssued(s, flags);
  }

  const UNORDERED := Flags(false, 60, 100)

  /** Two events of minute 0 with one of minute 1 in between. */
  function OutOfOrder(): State {
    Empty().(data := map[1 := Event(1, "a"), 2 := Event(61, "b"), 3 := Event(2, "c")],
             records := map[0 := [Record(1, 1), Record(3, 2)], 1 := [Record(2, 61)]],
             index := [0, 1], eidKey := 10, lastEid := 3)
  }

  /** The same store after a read at time 120 with an expiry of one minute. */
  function OutOfOrderRead(): State {
    OutOfOrder().(expireTime := 60)
  }

  lemma OutOfOrderIsReached()
    ensures AddBatch(AddBatch(AddBatch(Empty(), UNORDERED, ["a"], 1), UNORDERED, ["b"], 61), UNORDERED, ["c"], 2) ==
            OutOfOrder()
  {
    hide AddBatch;
    AddOne(Empty(), UNORDERED, ["a"], 1);
    var s1 := OneMore(Empty(), "a", 1);
    AddOne(s1, UNORDERED, ["b"], 61);
    var s2 := OneMore(s1, "b", 61);
    AddOne(s2, UNORDERED, ["c"], 2);
    assert s1.records[0] == [Record(1, 1)] && s2.records[1] == [Record(2, 61)];
    assert [Record(1, 1)] + [Record(3, 2)] == [Record(1, 1), Record(3, 2)];
    assert OneMore(s2, "c", 2).records == OutOfOrder().records;
  }

  lemma EmptySound()
    ensures Sound(Empty())
  {
  }

  lemma OutOfOrderSound()
    ensures Sound(OutOfOrder()) && Sound(OutOfOrderRead())
  {
    hide Sound, AddBatch, OutOfOrder;
    OutOfOrderIsReached();
    EmptySound();
    AddBatchSound(Empty(), UNORDERED, ["a"], 1);
    var s1 := AddBatch(Empty(), UNORDERED, ["a"], 1);
    AddBatchSound(s1, UNORDERED, ["b"], 61);
    AddBatchSound(AddBatch(s1, UNORDERED, ["b"], 61), UNORDERED, ["c"], 2);
    SoundIgnores(OutOfOrder(), OutOfOrderRead());
  }

  lemma ReadSetsExpiry()
    ensures Get(OutOfOrder(), UNORDERED, "", 0, 0, 120) == OutOfOrderRead()
  {
    hide Fetched;
    PartialBranchNeverRuns(OutOfOrder(), [0, 1]);
    assert Expirations([0], 0) == [] by {
      assert Expirations([0][..0], 0) == [];
    }
    assert [0, 1][..1] == [0];
    assert Expirations([0, 1], 0) == [];
  }

  /** Events arrive out of order, one read sets the expiry time, and the next read deletes a row that has
      not expired: its id lies between those of the expired minute. */
  lemma OutOfOrderExpiryTakesLiveRow()
    ensures AddBatch(AddBatch(AddBatch(Empty(), UNORDERED, ["a"], 1), UNORDERED, ["b"], 61), UNORDERED, ["c"], 2) ==
            OutOfOrder()
    ensures Get(OutOfOrder(), UNORDERED, "", 0, 0, 120) == OutOfOrderRead()
    ensures var s := OutOfOrderRead();
            && 2 in s.data && s.data[2].time >= s.expireTime && 2 in Purged(s).data
            && 2 !in Get(s, UNORDERED, "", 0, 0, 121).data
  {
    hide Sound, Fetched, Expire, Get, AddBatch;
    OutOfOrderIsReached();
    ReadSetsExpiry();
    OutOfOrderSound();
    var s := OutOfOrderRead();
    ExpirySweeps(s, true);
    GetData(s, UNORDERED, 121);
    assert 0 in ExpiredBins(s) by {
      assert s.index[0] == 0;
    }
    assert InRange(RecordsAt(s.records, 0), 2);
  }

  lemma GetData(s: State, flags: Flags, now: nat)
    requires EffectiveExpiry(s, flags) <= WORD
    ensures Get(s, flags, "", 0, 0, now).data == Expire(s, true).data
  {
  }
}
