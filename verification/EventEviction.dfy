/** Overflow eviction by event id, and what adding a batch keeps. */
module EventEviction {
  import opened EventKeys
  import opened EventModel
  import opened EventInvariant

  lemma {:induction false} RangeSize(ids: set<nat>, lo: nat, hi: int)
    requires lo <= hi + 1
    requires forall e :: e in ids ==> lo <= e <= hi
    ensures |ids| <= hi + 1 - lo
    decreases hi - lo
  {
    if lo == hi + 1 {
      assert ids == {};
    } else {
      RangeSize(ids - {hi}, lo, hi - 1);
      if hi in ids {
        assert |ids - {hi}| == |ids| - 1;
      } else {
        assert ids - {hi} == ids;
      }
    }
  }

  lemma TimesFollowIds(records: map<nat, seq<Record>>, r: Record, r': Record)
    requires Lists(records) && Ordered(records)
    requires In(records, r) && In(records, r') && r.eid <= r'.eid
    ensures r.time <= r'.time
  {
    if r.time > r'.time {
      if r.time / 60 == r'.time / 60 {
        SameBinOrder(records, r', r);
      }
    }
  }

  lemma SameBinOrder(records: map<nat, seq<Record>>, r: Record, r': Record)
    requires Ordered(records) && In(records, r) && In(records, r') && r.time / 60 == r'.time / 60 && r.time < r'.time
    ensures r.eid < r'.eid
  {
    var list := records[r.time / 60];
    var i :| 0 <= i < |list| && list[i] == r;
    var j :| 0 <= j < |list| && list[j] == r';
  }

  lemma RowBounds(s: State, e: nat)
    requires Inv(s) && e in s.data
    ensures 1 <= e <= Top(s) <= s.eidKey && s.data[e].time >= 1
  {
    assert In(s.records, Record(e, s.data[e].time));
  }

  /** The threshold subtraction cannot wrap: the persisted id counts at least the stored rows. */
  lemma ThresholdDoesNotUnderflow(s: State, max: nat)
    requires Sound(s) && |s.data| > max
    ensures max < s.eidKey
  {
    SoundRows(s);
    RangeSize(s.data.Keys, 1, s.eidKey);
    assert |s.data.Keys| == |s.data|;
  }

  lemma EvictedInv(s: State, threshold: nat)
    requires Inv(s)
    ensures Inv(s.(data := Evict(s, threshold)))
  {
  }

  /** The state `expireCheck` hands to the index query that follows the eviction. */
  function EvictedAt(s: State, threshold: nat): State
    requires threshold in s.data
  {
    s.(data := Evict(s, threshold), expireTime := Floor60(s.data[threshold].time))
  }

  lemma EvictedAtInv(s: State, threshold: nat)
    requires Inv(s) && threshold in s.data
    ensures Inv(EvictedAt(s, threshold))
  {
    hide Inv;
    EvictedInv(s, threshold);
    InvExpireTime(s.(data := Evict(s, threshold)), Floor60(s.data[threshold].time));
  }

  lemma InvExpireTime(s: State, expire: nat)
    requires Inv(s) && expire % 60 == 0
    ensures Inv(s.(expireTime := expire))
  {
  }

  lemma IndexExpirySparesNewRows(s: State, threshold: nat, e: nat)
    requires Inv(s) && threshold in s.data && e in s.data && e >= threshold
    ensures var u := EvictedAt(s, threshold);
            Inv(u) && e in Purged(u).data && Purged(u).data[e] == s.data[e]
  {
    var u := EvictedAt(s, threshold);
    EvictedAtInv(s, threshold);
    TimesFollowIds(s.records, Record(threshold, s.data[threshold].time), Record(e, s.data[e].time));
    assert u.data[e] == s.data[e];
    PurgedRows(u, e);
  }

  lemma ExpireCheckUnfold(s: State, max: nat)
    requires max <= WORD && |s.data| > max && max < s.eidKey
    requires s.eidKey - max in s.data ==> s.data[s.eidKey - max].time >= 1
    ensures var k := s.eidKey - max;
            ExpireCheck(s, max) == if k in s.data then Expire(EvictedAt(s, k), false) else s.(data := Evict(s, k))
  {
  }

  lemma ExpireCheckShape(s: State, max: nat)
    requires Inv(s) && max <= WORD && |s.data| > max
    ensures max < s.eidKey
    ensures var k := s.eidKey - max;
            ExpireCheck(s, max) == if k in s.data then Purged(EvictedAt(s, k)) else s.(data := Evict(s, k))
    ensures Inv(ExpireCheck(s, max))
  {
    hide *;
    InvIsSound(s);
    ThresholdDoesNotUnderflow(s, max);
    var k := s.eidKey - max;
    if k in s.data {
      RowBounds(s, k);
      EvictedAtInv(s, k);
      ExpiryExact(EvictedAt(s, k), false);
    } else {
      EvictedInv(s, k);
    }
    ExpireCheckUnfold(s, max);
  }

  /** With events in time order, overflow eviction never underflows, keeps every row from the threshold
      on, drops every row below it, and leaves at most max + 1 rows. */
  lemma EvictionSafeAndBounded(s: State, max: nat)
    requires Inv(s) && max <= WORD && |s.data| > max
    ensures max < s.eidKey
    ensures var t := ExpireCheck(s, max);
            && (forall e :: e in t.data <==> e in s.data && e >= s.eidKey - max)
            && (forall e :: e in t.data ==> t.data[e] == s.data[e])
            && |t.data| <= max + 1
  {
    hide Inv, ExpireCheck, Expire;
    ExpireCheckShape(s, max);
    var k := s.eidKey - max;
    var t := ExpireCheck(s, max);
    forall e
      ensures e in t.data <==> e in s.data && e >= k
      ensures e in t.data ==> t.data[e] == s.data[e] && e <= s.eidKey
    {
      if e in s.data {
        RowBounds(s, e);
        if k in s.data && e >= k {
          IndexExpirySparesNewRows(s, k, e);
        }
      }
    }
    RangeSize(t.data.Keys, k, s.eidKey);
    assert |t.data.Keys| == |t.data|;
  }

  lemma PurgedFrame(s: State)
    ensures var t := Purged(s);
            && (forall r :: In(t.records, r) ==> In(s.records, r))
            && t == s.(data := t.data, records := t.records, index := t.index)
  {
    DroppedRecords(s.records, ExpiredBins(s));
  }

  /** The check removes rows and records and touches neither ids nor watermarks. */
  lemma ExpireCheckFrame(s: State, max: nat)
    requires Inv(s) && max <= WORD
    ensures var t := ExpireCheck(s, max);
            && Inv(t)
            && (forall r :: In(t.records, r) ==> In(s.records, r))
            && (forall e :: e in t.data ==> e in s.data && t.data[e] == s.data[e])
            && t == s.(data := t.data, records := t.records, index := t.index, expireTime := t.expireTime)
  {
    hide Inv, Purged, Expire;
    if |s.data| > max {
      ExpireCheckShape(s, max);
      EvictionSafeAndBounded(s, max);
      if s.eidKey - max in s.data {
        PurgedFrame(EvictedAt(s, s.eidKey - max));
      }
    }
  }

  /** Whatever bounds the stored times and the expiry time still bounds the expiry time. */
  lemma ExpireCheckTime(s: State, max: nat, bound: nat)
    requires Inv(s) && max <= WORD && s.expireTime <= bound
    requires forall r :: In(s.records, r) ==> r.time <= bound
    ensures ExpireCheck(s, max).expireTime <= bound
  {
    hide Inv, ExpireCheck, Purged, In;
    CheckWithinLimit(s, max);
    if |s.data| > max {
      ExpireCheckShape(s, max);
      var k := s.eidKey - max;
      if k in s.data {
        RowRecorded(s, k);
        PurgedFrame(EvictedAt(s, k));
      }
    }
  }

  lemma RowRecorded(s: State, e: nat)
    requires Inv(s) && e in s.data
    ensures In(s.records, Record(e, s.data[e].time))
  {
  }

  lemma IssuedTime(s: State, flags: Flags, n: nat, bound: nat)
    requires Inv(s) && flags.max <= WORD && Top(s) + n < EID_BOUND && s.expireTime <= bound
    requires forall r :: In(s.records, r) ==> r.time <= bound
    ensures Issued(s, flags, n).expireTime <= bound
    ensures |s.data| <= flags.max ==> Issued(s, flags, n).expireTime == s.expireTime
  {
    hide Inv, ExpireCheck, In;
    InvNumbers(s);
    IssueEidsInv(s, n);
    IssueEidsIs(s, n);
    ExpireCheckTime(IssueEids(s, n), flags.max, bound);
    assert |s.data| <= flags.max ==> ExpireCheck(IssueEids(s, n), flags.max) == IssueEids(s, n) by {
      CheckWithinLimit(IssueEids(s, n), flags.max);
    }
  }

  lemma CheckWithinLimit(s: State, max: nat)
    requires max <= WORD
    ensures |s.data| <= max ==> ExpireCheck(s, max) == s
  {
  }

  lemma IssuedFrame(s: State, flags: Flags, n: nat)
    requires Inv(s) && flags.max <= WORD && Top(s) + n < EID_BOUND
    ensures var t := Issued(s, flags, n);
            && Inv(t) && Top(t) == Top(s) + n
            && (forall r :: In(t.records, r) ==> In(s.records, r))
            && (forall e :: e in t.data ==> e in s.data && t.data[e] == s.data[e])
            && t == s.(data := t.data, records := t.records, index := t.index, expireTime := t.expireTime,
                       eidKey := t.eidKey, lastEid := t.lastEid)
            && (n > 0 ==> t.lastEid == Top(s) + n)
  {
    hide Inv, ExpireCheck, In;
    InvNumbers(s);
    IssueEidsInv(s, n);
    IssueEidsIs(s, n);
    ExpireCheckFrame(IssueEids(s, n), flags.max);
  }

  /** Adding a batch in time order keeps the invariant and adds exactly its rows. */
  lemma AddBatchInv(s: State, flags: Flags, rows: seq<string>, time: nat)
    requires Inv(s) && flags.max <= WORD && rows != []
    requires Top(s) + |rows| < EID_BOUND
    requires time >= 1 && forall r :: In(s.records, r) ==> r.time <= time
    ensures var t, u := AddBatch(s, flags, rows, time), Issued(s, flags, |rows|);
            && Inv(t) && Top(t) == Top(s) + |rows|
            && t == u.(data := StoreRows(u.data, FirstEid(s), rows, time), records := t.records, index := t.index)
            && (forall r :: In(t.records, r) <==>
                  In(u.records, r) || (r.time == time && FirstEid(s) <= r.eid < FirstEid(s) + |rows|))
  {
    hide Inv, Issued, RecordEvents, StoreRows, EidRange, In;
    var u := Issued(s, flags, |rows|);
    IssuedFrame(s, flags, |rows|);
    EarlierIds(s, u);
    assert FirstEid(s) == Top(s) + 1;
    RecordedInv(u, FirstEid(s), rows, time);
  }

  lemma EarlierIds(s: State, u: State)
    requires Inv(s) && forall r :: In(u.records, r) ==> In(s.records, r)
    ensures AllBefore(u.records, Top(s) + 1)
  {
  }

  lemma OrderedAppend(records: map<nat, seq<Record>>, first: nat, rows: seq<string>, time: nat)
    requires Lists(records) && Ordered(records) && rows != [] && AllBefore(records, first)
    requires forall r :: In(records, r) ==> r.time <= time
    ensures Ordered(records[time / 60 := RecordsAt(records, time / 60) + NewRecords(EidRange(first, |rows|), time)])
  {
    AppendedOrdered(records, first, |rows|, time);
  }

  /** Writing the rows of a batch in time order keeps the invariant. */
  lemma RecordedInv(u: State, first: nat, rows: seq<string>, time: nat)
    requires Inv(u) && rows != [] && u.lastEid == first + |rows| - 1 && AllBefore(u.records, first)
    requires first >= 1 && time >= 1 && forall r :: In(u.records, r) ==> r.time <= time
    ensures var t := RecordEvents(u.(data := StoreRows(u.data, first, rows, time)), EidRange(first, |rows|), time);
            && Inv(t) && Top(t) == Top(u)
            && t == u.(data := StoreRows(u.data, first, rows, time), records := t.records, index := t.index)
            && (forall r :: In(t.records, r) <==> In(u.records, r) || (r.time == time && first <= r.eid < first + |rows|))
  {
    hide Inv, Indexed, Ordered, In, AllBefore, StoreRows, RecordEvents, Lists;
    InvLists(u);
    var s, eids := u.(data := StoreRows(u.data, first, rows, time)), EidRange(first, |rows|);
    var t := RecordEvents(s, eids, time);
    RecordEventsIndexed(u, first, rows, time);
    OrderedAppend(u.records, first, rows, time);
    RecordsWritten(s, eids, time);
    InvAgain(u, t);
  }

  lemma InvLists(u: State)
    requires Inv(u)
    ensures Indexed(u.data, u.records, u.index) && Lists(u.records) && Ordered(u.records)
  {
  }

  lemma InvAgain(u: State, t: State)
    requires Inv(u) && Indexed(t.data, t.records, t.index) && Ordered(t.records)
    requires t.lastEid == u.lastEid > 0 && t.eidKey == u.eidKey && t.expireTime == u.expireTime
    requires forall r :: In(t.records, r) ==> In(u.records, r) || (1 <= r.eid <= u.lastEid && r.time >= 1)
    ensures Inv(t) && Top(t) == Top(u)
  {
    hide Indexed, Ordered, In;
  }
}
