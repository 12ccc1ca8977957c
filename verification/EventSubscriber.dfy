/** The subscriber object: step-by-step code over the store, proved to do what `EventModel` says. */
module EventSubscriber {
  import opened EventKeys
  import M = EventModel
  import opened EventInvariant
  import opened EventReads

  type Record = M.Record
  type Event = M.Event

  class Subscriber {
    // the persisted key families
    var data: map<nat, Event>
    var records: map<nat, seq<Record>>
    var index: seq<nat>
    var eidKey: nat
    var marks: map<string, M.Mark>
    // the fields of the object
    var lastEid: nat
    var expireTime: nat
    var optimizeTime: nat
    var optimizeEid: nat
    var queries: set<string>
    var queryCount: nat
    var minExpiration: nat

    ghost function St(): M.State
      reads this
    {
      M.State(data, records, index, eidKey, marks, lastEid, expireTime, optimizeTime, optimizeEid, queries, queryCount, minExpiration)
    }

    constructor ()
      ensures St() == M.Empty()
    {
      data, records, index, eidKey, marks := map[], map[], [], 0, map[];
      lastEid, expireTime, optimizeTime, optimizeEid, queries, queryCount, minExpiration := 0, 0, 0, 0, {}, 0, 0;
    }

    method GetEventID() returns (eid: nat)
      modifies this`lastEid, this`eidKey
      ensures St() == M.IssueEid(old(St())) && eid == lastEid
    {
      if lastEid == 0 {
        lastEid := eidKey;
      }
      if lastEid % 10 == 0 {
        eidKey := lastEid + 10;
      }
      lastEid := lastEid + 1;
      eid := lastEid;
    }

    /** The inner loop of `getRecords`, over the list of one bin. */
    method AppendUnseen(seen: seq<Record>, list: seq<Record>, optimize: bool) returns (recs: seq<Record>)
      ensures recs == seen + M.Unseen(list, optimize, optimizeTime, optimizeEid)
    {
      recs := seen;
      for j := 0 to |list|
        invariant recs == seen + M.Unseen(list[..j], optimize, optimizeTime, optimizeEid)
      {
        assert list[..j + 1][..j] == list[..j];
        if !(optimize && list[j].time <= (optimizeTime + 1) % M.WORD && list[j].eid <= optimizeEid) {
          recs := recs + [list[j]];
        }
      }
      assert list[..|list|] == list;
    }

    method GetRecords(bins: seq<nat>, optimize: bool) returns (recs: seq<Record>)
      ensures recs == M.Gather(records, bins, optimize, optimizeTime, optimizeEid)
    {
      hide M.Unseen;
      recs := [];
      for i := 0 to |bins|
        invariant recs == M.Gather(records, bins[..i], optimize, optimizeTime, optimizeEid)
      {
        assert bins[..i + 1][..i] == bins[..i];
        recs := AppendUnseen(recs, M.RecordsAt(records, bins[i]), optimize);
      }
      assert bins[..|bins|] == bins;
    }

    /** The per-record loop of `expireRecords`. */
    method DropExpired(recs: seq<Record>) returns (persisting: seq<Record>)
      modifies this`data
      ensures data == old(data) - M.ExpiredEids(recs, expireTime)
      ensures persisting == M.Persisting(recs, expireTime)
    {
      persisting := [];
      for i := 0 to |recs|
        invariant persisting == M.Persisting(recs[..i], expireTime)
        invariant data == old(data) - M.ExpiredEids(recs[..i], expireTime)
      {
        ExpiredNext(old(data), recs, i, expireTime);
        hide M.ExpiredEids, M.Persisting;
        if recs[i].time <= expireTime {
          data := data - {recs[i].eid};
        } else {
          persisting := persisting + [recs[i]];
        }
      }
      assert recs[..|recs|] == recs;
    }

    method ExpireRecords(bin: nat, all: bool)
      modifies this
      ensures St() == M.ExpireRecords(old(St()), bin, all)
    {
      hide M.ExpiredEids, M.Persisting, M.Gather, M.DeleteRange;
      if |queries| < queryCount {
        return;
      }
      var recs := GetRecords([bin], false);
      AllUnseen(records, bin, optimizeTime, optimizeEid);
      var persisting := [];
      if all && |recs| > 1 {
        data := M.DeleteRange(data, recs[0].eid, recs[|recs| - 1].eid);
      } else {
        persisting := DropExpired(recs);
      }
      if all {
        records := records - {bin};
      } else if |persisting| < |recs| {
        records := records[bin := persisting];
      }
    }

    method ExpireIndexes(bins: seq<nat>, expirations: seq<nat>)
      modifies this
      ensures St() == M.ExpireIndexes(old(St()), bins, expirations)
    {
      if |queries| < queryCount {
        return;
      }
      var persisting := bins;
      for i := 0 to |expirations|
        invariant St() == M.ExpireEach(old(St()), expirations[..i])
        invariant persisting == M.WithoutEach(bins, expirations[..i])
      {
        assert expirations[..i + 1][..i] == expirations[..i];
        ExpireRecords(expirations[i], true);
        persisting := M.Without(persisting, expirations[i]);
      }
      assert expirations[..|expirations|] == expirations;
      index := persisting;
    }

    method GetIndexes(start: nat, stop: nat, sort: bool) returns (indexes: seq<nat>)
      modifies this
      ensures St() == M.Expire(old(St()), sort)
      ensures indexes == if sort then M.Sort(M.SelectedBins(old(index), start, stop)) else []
    {
      hide M.ExpireRecords, M.ExpirePartial, M.Expirations, M.SelectedBins, M.ExpireIndexes, M.Sort;
      indexes := [];
      var bins, expirations := index, [];
      NoBins(St(), bins, expireTime, start, stop);
      for i := 0 to |bins|
        invariant St() == if sort then M.ExpirePartial(old(St()), bins[..i]) else old(St())
        invariant expireTime == old(expireTime)
        invariant expirations == M.Expirations(bins[..i], expireTime)
        invariant indexes == if sort then M.SelectedBins(bins[..i], start, stop) else []
      {
        BinStep(old(St()), bins, i, expireTime, start, stop);
        var step := bins[i];
        if (step + 1) * 60 <= expireTime {
          expirations := expirations + [step];
        } else if step * 60 < expireTime && sort {
          ExpireRecords(step, false);
        }
        if step >= start / 60 && (stop == 0 || step < stop / 60 + 1) && sort {
          indexes := indexes + [step];
        }
      }
      assert bins[..|bins|] == bins;
      if expirations != [] {
        ExpireIndexes(bins, expirations);
      }
      if sort {
        indexes := M.Sort(indexes);
      }
    }

    /** `scanDatabaseKeys` on the data rows, in some order. */
    method ScanKeys() returns (keys: seq<nat>)
      ensures |keys| == |data| && forall k :: k in keys <==> k in data
    {
      var left := data.Keys;
      keys := [];
      while left != {}
        invariant left <= data.Keys && |keys| + |left| == |data.Keys|
        invariant forall k :: k in keys <==> k in data && k !in left
        decreases left
      {
        var k :| k in left;
        left := left - {k};
        keys := keys + [k];
      }
      assert |data.Keys| == |data|;
    }

    /** The scan of `expireCheck` for the smallest and the largest key below the threshold;
        zero means that none was found yet. */
    static method KeyBounds(keys: seq<nat>, threshold: nat) returns (found: bool, minKey: nat, maxKey: nat)
      requires forall k :: k in keys ==> k >= 1
      ensures !found ==> forall k :: k in keys ==> k >= threshold
      ensures found ==> minKey in keys && maxKey in keys && minKey <= maxKey < threshold
      ensures found ==> forall k :: k in keys && k < threshold ==> minKey <= k <= maxKey
    {
      var minValue, maxValue := 0, 0;
      found, minKey, maxKey := false, 0, 0;
      for i := 0 to |keys|
        invariant found <==> minValue != 0
        invariant !found ==> maxValue == 0 && forall k :: k in keys[..i] ==> k >= threshold
        invariant found ==> minKey == minValue && maxKey == maxValue
        invariant found ==> minKey in keys && maxKey in keys && minKey <= maxKey < threshold
        invariant found ==> forall k :: k in keys[..i] && k < threshold ==> minKey <= k <= maxKey
      {
        assert keys[..i + 1] == keys[..i] + [keys[i]];
        var value := keys[i];
        assert value in keys;
        if value < threshold {
          minValue := if minValue == 0 || value < minValue then value else minValue;
          if minValue == value {
            found, minKey := true, keys[i];
          }
          maxValue := if value > maxValue then value else maxValue;
          if maxValue == value {
            maxKey := keys[i];
          }
        }
      }
      assert keys[..|keys|] == keys;
    }

    /** Delete the rows below the threshold by one key or one key range. */
    method EvictBelow(threshold: nat)
      requires forall k :: k in data ==> 1 <= k < EID_BOUND
      modifies this`data
      ensures data == M.Evict(old(St()), threshold)
    {
      hide M.DeleteRange;
      var keys := ScanKeys();
      var found, minKey, maxKey := KeyBounds(keys, threshold);
      if found {
        DeleteRangeIsNumeric(data, minKey, maxKey);
        if maxKey == minKey {
          data := data - {minKey};
        } else {
          data := M.DeleteRange(data, minKey, maxKey);
        }
      }
    }

    method ExpireCheck(max: nat)
      requires max <= M.WORD && forall k :: k in data ==> 1 <= k < EID_BOUND
      modifies this
      ensures St() == M.ExpireCheck(old(St()), max)
    {
      hide M.Expire, M.Evict;
      var keys := ScanKeys();
      if |keys| <= max {
        return;
      }
      var threshold := M.Sub64(eidKey, max);
      EvictBelow(threshold);
      if threshold !in data {
        return;
      }
      var time := data[threshold].time;
      if time > 0 {
        expireTime := time - time % 60;
      }
      var _ := GetIndexes(expireTime, 0, false);
    }

    method RecordEvents(eids: seq<nat>, time: nat)
      modifies this
      ensures St() == M.RecordEvents(old(St()), eids, time)
    {
      if eids == [] {
        return;
      }
      var bin := time / 60;
      var list, newIndex := M.RecordsAt(records, bin), index;
      ghost var prior := list;
      for i := 0 to |eids|
        invariant list == prior + M.NewRecords(eids[..i], time)
        invariant newIndex == if prior == [] && i > 0 then index + [bin] else index
      {
        assert eids[..i + 1][..i] == eids[..i];
        if list == [] {
          newIndex := index + [bin];
          list := [M.Record(eids[i], time)];
        } else {
          list := list + [M.Record(eids[i], time)];
        }
      }
      assert eids[..|eids|] == eids;
      index := newIndex;
      records := records[bin := list];
    }

    /** The first loop of `addBatch`: issue the ids and build the rows, storing nothing yet. */
    method PrepareBatch(rows: seq<string>, time: nat) returns (batch: map<nat, Event>, eids: seq<nat>)
      requires Counters(St())
      modifies this`lastEid, this`eidKey
      ensures St() == M.IssueEids(old(St()), |rows|)
      ensures eids == M.EidRange(M.FirstEid(old(St())), |rows|)
      ensures batch == M.StoreRows(map[], M.FirstEid(old(St())), rows, time)
    {
      ghost var first := M.FirstEid(St());
      batch, eids := map[], [];
      for i := 0 to |rows|
        invariant St() == M.IssueEids(old(St()), i)
        invariant eids == M.EidRange(first, i)
        invariant batch == M.StoreRows(map[], first, rows[..i], time)
      {
        hide M.IssueEid, M.IssueEids, M.StoreRows, M.EidRange, M.FirstEid, Counters;
        BatchStep(old(St()), first, rows, time, i);
        var eid := GetEventID();
        assert eid == first + i;
        batch := batch[eid := M.Event(time, rows[i])];
        eids := eids + [eid];
      }
      assert rows[..|rows|] == rows;
    }

    /** `addBatch`; a custom time of zero stands for the clock. */
    method AddBatch(rows: seq<string>, flags: M.Flags, customTime: nat, now: nat) returns (ok: bool)
      requires flags.max <= M.WORD && Counters(St())
      requires forall k :: k in data ==> 1 <= k < EID_BOUND
      modifies this
      ensures St() == M.AddBatch(old(St()), flags, rows, if customTime != 0 then customTime else now)
      ensures ok <==> rows != []
    {
      var time := if customTime != 0 then customTime else now;
      if rows == [] {
        return false;
      }
      hide M.ExpireCheck, M.IssueEids, M.StoreRows, M.RecordEvents, M.EidRange;
      var batch, eids := PrepareBatch(rows, time);
      if lastEid % M.CHECKPOINT == 0 {
        ExpireCheck(flags.max);
      }
      StoreRowsMerge(data, M.FirstEid(old(St())), rows, time);
      data := data + batch;
      RecordEvents(eids, time);
      return true;
    }

    /** The two passes of `get`: map the records of the window to keys, then read the rows. */
    method YieldRows(recs: seq<Record>, start: nat, stop: nat) returns (rows: seq<nat>)
      ensures rows == M.Emit(data, recs, start, stop)
    {
      var mapped := [];
      for i := 0 to |recs|
        invariant mapped == Mapped(recs[..i], start, stop)
      {
        assert recs[..i + 1][..i] == recs[..i];
        if recs[i].time >= start && (recs[i].time <= stop || stop == 0) {
          mapped := mapped + [recs[i].eid];
        }
      }
      assert recs[..|recs|] == recs;
      rows := [];
      for i := 0 to |mapped|
        invariant rows == Present(data, mapped[..i])
      {
        assert mapped[..i + 1][..i] == mapped[..i];
        if mapped[i] in data {
          rows := rows + [mapped[i]];
        }
      }
      assert mapped[..|mapped|] == mapped;
      EmitInTwoPasses(data, recs, start, stop);
    }

    /** The end of `get`: the next expiry time and the watermark of the executing query. */
    method SettleRead(flags: M.Flags, executing: string, now: nat)
      requires M.EffectiveExpiry(St(), flags) <= M.WORD
      modifies this`expireTime, this`marks
      ensures expireTime == if flags.expiry > 0 then M.Floor60(M.Sub64(now, M.EffectiveExpiry(old(St()), flags)))
                            else old(expireTime)
      ensures marks == if flags.optimize && executing != "" then old(marks)[executing := M.Mark(optimizeTime, optimizeEid)]
                       else old(marks)
    {
      if flags.expiry > 0 {
        var expiry := flags.expiry;
        if expiry < minExpiration {
          expiry := minExpiration;
        }
        expireTime := M.Sub64(now, expiry);
        expireTime := expireTime - expireTime % 60;
      }
      if flags.optimize && executing != "" {
        marks := marks[executing := M.Mark(optimizeTime, optimizeEid)];
      }
    }

    method Get(flags: M.Flags, executing: string, start: nat, stop: nat, now: nat) returns (rows: seq<nat>)
      requires M.EffectiveExpiry(St(), flags) <= M.WORD
      modifies this
      ensures St() == M.Get(old(St()), flags, executing, start, stop, now)
      ensures rows == M.GetRows(old(St()), flags, start, stop)
    {
      hide M.Expire, M.Sort, M.SelectedBins, M.Gather, M.Emit, M.Floor60, M.Sub64;
      ExpireKeepsFields(St(), true);
      var indexes := GetIndexes(start, stop, true);
      var recs := GetRecords(indexes, flags.optimize);
      if flags.optimize && recs != [] {
        optimizeEid := recs[|recs| - 1].eid;
      }
      rows := YieldRows(recs, start, stop);
      SettleRead(flags, executing, now);
    }

    /** `genTable`: with time constraints, the window they describe; otherwise, in a daemon that
        optimizes, everything since the executing query's watermark; otherwise everything. */
    method GenTable(flags: M.Flags, daemon: bool, constraints: seq<Constraint>, executing: string, now: nat)
      returns (rows: seq<nat>)
      requires M.EffectiveExpiry(St(), flags) <= M.WORD
      modifies this
      ensures constraints != [] ==>
                var w := Narrow(constraints, Window(0, 0));
                && St() == M.Get(old(St()), flags, executing, w.start, w.stop, now)
                && rows == M.GetRows(old(St()), flags, w.start, w.stop)
      ensures constraints == [] && daemon && flags.optimize ==>
                && St() == M.RunState(old(St()), flags, executing, now)
                && rows == M.RunRows(old(St()), flags, executing, now)
      ensures constraints == [] && !(daemon && flags.optimize) ==>
                && St() == M.Get(old(St()), flags, executing, 0, 0, now)
                && rows == M.GetRows(old(St()), flags, 0, 0)
    {
      hide M.Get, M.GetRows;
      var start, stop := 0, 0;
      if |constraints| > 0 {
        start, stop := BuildWindow(constraints);
      } else if daemon && flags.optimize {
        var mark := if executing != "" && executing in marks then marks[executing] else M.Mark(0, 0);
        optimizeTime, optimizeEid := mark.time, mark.eid;
        start := optimizeTime;
        optimizeTime := M.Sub64(now, 1);
        if executing != "" && executing !in queries {
          queries := queries + {executing};
        }
        assert old(queries) + {executing} == if executing in old(queries) then old(queries) else old(queries) + {executing};
      }
      rows := Get(flags, executing, start, stop, now);
    }

    static method BuildWindow(constraints: seq<Constraint>) returns (start: nat, stop: nat)
      ensures Window(start, stop) == Narrow(constraints, Window(0, 0))
    {
      start, stop := 0, 0;
      for i := 0 to |constraints|
        invariant Narrow(constraints, Window(0, 0)) == Narrow(constraints[i..], Window(start, stop))
      {
        assert constraints[i..][1..] == constraints[i + 1..];
        var expr := ToTime(constraints[i].expr);
        match constraints[i].op {
          case Equals => return expr, expr;
          case GreaterThan => start := Max(start, (expr + 1) % M.WORD);
          case GreaterThanOrEquals => start := Max(start, expr);
          case LessThan => stop := Min(stop, M.Sub64(expr, 1));
          case LessThanOrEquals => stop := Min(stop, expr);
          case Unsupported =>
        }
      }
    }

    /** The expiry part of `configUpdate`, given the intervals of the scheduled queries that read
        this subscriber; without any, the subscriber is left alone. */
    method ConfigUpdate(intervals: seq<nat>)
      modifies this
      ensures intervals == [] ==> St() == old(St())
      ensures intervals != [] ==> exists m ::
                && m in intervals && (forall x :: x in intervals ==> x <= m)
                && St() == M.Configure(old(St()), m, |intervals|)
    {
      if intervals == [] {
        return;
      }
      var maxInterval, count := 0, 0;
      for i := 0 to |intervals|
        invariant count == i && (i == 0 ==> maxInterval == 0)
        invariant i > 0 ==> maxInterval in intervals
        invariant forall x :: x in intervals[..i] ==> x <= maxInterval
      {
        assert intervals[..i + 1] == intervals[..i] + [intervals[i]];
        maxInterval := if intervals[i] > maxInterval then intervals[i] else maxInterval;
        count := count + 1;
      }
      assert intervals[..|intervals|] == intervals;
      minExpiration := maxInterval * 3;
      minExpiration := minExpiration + (60 - minExpiration % 60);
      queryCount := count;
      queries := {};
    }
  }

  lemma {:induction false} StoreRowsMerge(data: map<nat, Event>, first: nat, rows: seq<string>, time: nat)
    ensures M.StoreRows(data, first, rows, time) == data + M.StoreRows(map[], first, rows, time)
  {
    if rows != [] {
      StoreRowsMerge(data, first, rows[..|rows| - 1], time);
    }
  }

  lemma ExpireKeepsFields(s: M.State, sort: bool)
    ensures var t := M.Expire(s, sort);
            && t.expireTime == s.expireTime && t.marks == s.marks && t.minExpiration == s.minExpiration
            && t.optimizeTime == s.optimizeTime && t.optimizeEid == s.optimizeEid
  {
    PartialKeepsFields(s, s.index);
    var t := if sort then M.ExpirePartial(s, s.index) else s;
    EachKeepsFields(t, M.Expirations(s.index, s.expireTime));
  }

  ghost predicate SameFields(s: M.State, t: M.State) {
    t == s.(data := t.data, records := t.records)
  }

  lemma {:induction false} PartialKeepsFields(s: M.State, bins: seq<nat>)
    ensures SameFields(s, M.ExpirePartial(s, bins))
  {
    if bins != [] {
      PartialKeepsFields(s, bins[..|bins| - 1]);
    }
  }

  lemma {:induction false} EachKeepsFields(s: M.State, bins: seq<nat>)
    ensures SameFields(s, M.ExpireEach(s, bins))
  {
    if bins != [] {
      EachKeepsFields(s, bins[..|bins| - 1]);
    }
  }

  /** The keys `get` maps out of the records, and those of them that hold a row. */
  function Mapped(recs: seq<Record>, start: nat, stop: nat): seq<nat> {
    if recs == [] then []
    else
      var rest, r := Mapped(recs[..|recs| - 1], start, stop), recs[|recs| - 1];
      if M.InWindow(r.time, start, stop) then rest + [r.eid] else rest
  }

  function Present(data: map<nat, Event>, eids: seq<nat>): seq<nat> {
    if eids == [] then []
    else
      var rest, e := Present(data, eids[..|eids| - 1]), eids[|eids| - 1];
      if e in data then rest + [e] else rest
  }

  lemma {:induction false} EmitInTwoPasses(data: map<nat, Event>, recs: seq<Record>, start: nat, stop: nat)
    ensures Present(data, Mapped(recs, start, stop)) == M.Emit(data, recs, start, stop)
  {
    if recs != [] {
      EmitInTwoPasses(data, recs[..|recs| - 1], start, stop);
      var rest := Mapped(recs[..|recs| - 1], start, stop);
      assert (rest + [recs[|recs| - 1].eid])[..|rest|] == rest;
    }
  }

  lemma ExpiredNext(data: map<nat, Event>, recs: seq<Record>, i: nat, expire: nat)
    requires i < |recs|
    ensures data - M.ExpiredEids(recs[..i + 1], expire) ==
            data - M.ExpiredEids(recs[..i], expire) - (if recs[i].time <= expire then {recs[i].eid} else {})
    ensures M.Persisting(recs[..i + 1], expire) ==
            M.Persisting(recs[..i], expire) + (if recs[i].time <= expire then [] else [recs[i]])
  {
    assert recs[..i + 1] == recs[..i] + [recs[i]];
    assert M.ExpiredEids(recs[..i + 1], expire) ==
           M.ExpiredEids(recs[..i], expire) + (if recs[i].time <= expire then {recs[i].eid} else {});
  }

  lemma {:induction false} KeepAll(recs: seq<Record>, time: nat, eid: nat)
    ensures M.Unseen(recs, false, time, eid) == recs
  {
    if recs != [] {
      KeepAll(recs[..|recs| - 1], time, eid);
    }
  }

  lemma AllUnseen(records: map<nat, seq<Record>>, bin: nat, time: nat, eid: nat)
    ensures M.Gather(records, [bin], false, time, eid) == M.RecordsAt(records, bin)
  {
    KeepAll(M.RecordsAt(records, bin), time, eid);
    assert [bin][..0] == [];
  }

  lemma NoBins(s: M.State, bins: seq<nat>, expire: nat, start: nat, stop: nat)
    ensures M.ExpirePartial(s, bins[..0]) == s && M.Expirations(bins[..0], expire) == [] && M.SelectedBins(bins[..0], start, stop) == []
  {
  }

  /** One more bin of the index, in the terms of the model. */
  lemma BinStep(s: M.State, bins: seq<nat>, i: nat, expire: nat, start: nat, stop: nat)
    requires i < |bins|
    ensures M.Expirations(bins[..i + 1], expire) ==
            M.Expirations(bins[..i], expire) + (if M.BinExpired(bins[i], expire) then [bins[i]] else [])
    ensures M.SelectedBins(bins[..i + 1], start, stop) ==
            M.SelectedBins(bins[..i], start, stop) + (if M.BinSelected(bins[i], start, stop) then [bins[i]] else [])
    ensures var t := M.ExpirePartial(s, bins[..i]);
            M.ExpirePartial(s, bins[..i + 1]) ==
            if M.BinPartlyExpired(bins[i], t.expireTime) then M.ExpireRecords(t, bins[i], false) else t
    ensures M.ExpireRecords(M.ExpirePartial(s, bins[..i]), bins[i], false).expireTime == M.ExpirePartial(s, bins[..i]).expireTime
  {
    assert bins[..i + 1][..i] == bins[..i];
  }

  /** One more row of a batch, in the terms of the model. */
  lemma BatchStep(s: M.State, first: nat, rows: seq<string>, time: nat, i: nat)
    requires Counters(s) && first == M.FirstEid(s) && i < |rows|
    ensures M.IssueEids(s, i + 1) == M.IssueEid(M.IssueEids(s, i)) && M.IssueEids(s, i + 1).lastEid == first + i
    ensures M.EidRange(first, i + 1) == M.EidRange(first, i) + [first + i]
    ensures M.StoreRows(map[], first, rows[..i + 1], time) ==
            M.StoreRows(map[], first, rows[..i], time)[first + i := M.Event(time, rows[i])]
  {
    hide M.IssueEid, Counters;
    IssueEidsIs(s, i + 1);
    assert rows[..i + 1][..i] == rows[..i];
  }
}
