/** What every operation of the event store keeps, and that expiry by key range is exact. */
module EventInvariant {
  import opened EventKeys
  import opened EventModel

  predicate In(records: map<nat, seq<Record>>, r: Record) {
    r.time / 60 in records && r in records[r.time / 60]
  }

  ghost predicate Distinct(index: seq<nat>) {
    forall i, j :: 0 <= i < j < |index| ==> index[i] != index[j]
  }

  /** Record lists are non-empty and hold distinct ids of their own minute. */
  ghost predicate Lists(records: map<nat, seq<Record>>) {
    && (forall b :: b in records ==> records[b] != [])
    && (forall b, i :: b in records && 0 <= i < |records[b]| ==> records[b][i].time / 60 == b)
    && (forall b, i, j :: b in records && 0 <= i < j < |records[b]| ==> records[b][i].eid != records[b][j].eid)
  }

  ghost predicate OneRecordEach(records: map<nat, seq<Record>>) {
    forall r, r' :: In(records, r) && In(records, r') && r.eid == r'.eid ==> r == r'
  }

  ghost predicate IndexLists(index: seq<nat>, records: map<nat, seq<Record>>) {
    Distinct(index) && forall b :: b in index <==> b in records
  }

  ghost predicate RowsRecorded(data: map<nat, Event>, records: map<nat, seq<Record>>) {
    forall e :: e in data ==> In(records, Record(e, data[e].time))
  }

  /** The three key families describe the same rows, in whatever order they arrived. */
  ghost predicate Indexed(data: map<nat, Event>, records: map<nat, seq<Record>>, index: seq<nat>) {
    Lists(records) && OneRecordEach(records) && IndexLists(index, records) && RowsRecorded(data, records)
  }

  /** Ids and times grow together, inside a bin and from bin to bin. */
  ghost predicate Ordered(records: map<nat, seq<Record>>) {
    && (forall b, i, j :: b in records && 0 <= i < j < |records[b]| ==>
          records[b][i].eid < records[b][j].eid && records[b][i].time <= records[b][j].time)
    && (forall r, r' :: In(records, r) && In(records, r') && r.time / 60 < r'.time / 60 ==> r.eid < r'.eid)
  }

  /** The highest id issued so far, or an upper bound of it right after a restart. */
  function Top(s: State): nat {
    if s.lastEid == 0 then s.eidKey else s.lastEid
  }

  predicate Counters(s: State) {
    && s.eidKey % 10 == 0
    && s.lastEid <= s.eidKey
    && (s.lastEid > 0 ==> s.eidKey < s.lastEid + 10)
  }

  ghost predicate Bounded(s: State) {
    forall r :: In(s.records, r) ==> 1 <= r.eid <= Top(s) && r.time >= 1
  }

  ghost predicate Inv(s: State) {
    && Indexed(s.data, s.records, s.index)
    && Ordered(s.records)
    && Counters(s)
    && Bounded(s)
    && Top(s) < EID_BOUND
    && s.expireTime % 60 == 0
  }

  /** Ids grow along each record list. */
  ghost predicate Growing(records: map<nat, seq<Record>>) {
    forall b, i, j :: b in records && 0 <= i < j < |records[b]| ==> records[b][i].eid < records[b][j].eid
  }

  ghost predicate IdsUpTo(records: map<nat, seq<Record>>, top: nat) {
    forall r :: In(records, r) ==> 1 <= r.eid <= top
  }

  /** What holds whatever times the events are given. */
  ghost predicate Sound(s: State) {
    && Indexed(s.data, s.records, s.index)
    && Growing(s.records)
    && Counters(s)
    && IdsUpTo(s.records, Top(s))
    && Top(s) < EID_BOUND
    && s.expireTime % 60 == 0
  }

  lemma InvIsSound(s: State)
    requires Inv(s)
    ensures Sound(s)
  {
  }

  lemma SoundRows(s: State)
    requires Sound(s)
    ensures forall e :: e in s.data ==> 1 <= e <= Top(s)
  {
    forall e | e in s.data
      ensures 1 <= e <= Top(s)
    {
      assert In(s.records, Record(e, s.data[e].time));
    }
  }

  /** The parts of the invariant that say nothing about the rows. */
  lemma InvNumbers(s: State)
    requires Inv(s)
    ensures Counters(s) && Top(s) < EID_BOUND && s.expireTime % 60 == 0
  {
  }

  // ----- partial bins -----

  /** The expiry time is always a multiple of sixty, so no bin is ever partly expired. */
  lemma NoPartialBin(bin: nat, expire: nat)
    requires expire % 60 == 0
    ensures !BinPartlyExpired(bin, expire)
  {
    assert expire == expire / 60 * 60;
  }

  lemma {:induction false} PartialBranchNeverRuns(s: State, bins: seq<nat>)
    requires s.expireTime % 60 == 0
    ensures ExpirePartial(s, bins) == s
  {
    if bins != [] {
      PartialBranchNeverRuns(s, bins[..|bins| - 1]);
      NoPartialBin(bins[|bins| - 1], s.expireTime);
    }
  }

  lemma {:induction false} PersistingAre(recs: seq<Record>, expire: nat)
    ensures forall r :: r in Persisting(recs, expire) <==> r in recs && r.time > expire
    ensures |Persisting(recs, expire)| <= |recs|
    ensures |Persisting(recs, expire)| == |recs| <==> forall i :: 0 <= i < |recs| ==> recs[i].time > expire
  {
    if recs != [] {
      var init, last := recs[..|recs| - 1], recs[|recs| - 1];
      PersistingAre(init, expire);
      assert recs == init + [last];
    }
  }

  /** The branch that does run when the expiry time is set to the middle of a minute: it removes exactly
      the rows of that bin up to the expiry time, with their records, in whatever order they arrived. */
  lemma PartialExpiryExact(s: State, bin: nat, e: nat)
    requires Indexed(s.data, s.records, s.index) && AllQueriesExecuted(s) && bin in s.records
    ensures var t := ExpireRecords(s, bin, false);
            && (e in t.data <==> e in s.data && !(s.data[e].time / 60 == bin && s.data[e].time <= s.expireTime))
            && (forall r :: r in RecordsAt(t.records, bin) <==> r in s.records[bin] && r.time > s.expireTime)
  {
    var recs := s.records[bin];
    PersistingAre(recs, s.expireTime);
    assert e in s.data ==> In(s.records, Record(e, s.data[e].time));
    assert forall r :: r in recs ==> In(s.records, r);
    if |Persisting(recs, s.expireTime)| == |recs| {
      assert forall r :: r in recs ==> r.time > s.expireTime;
    }
  }

  // ----- one bin -----

  /** The rows of all bins but those in `bins`. */
  function RowsOutside(data: map<nat, Event>, bins: set<nat>): map<nat, Event> {
    map e | e in data && data[e].time / 60 !in bins :: data[e]
  }

  lemma DeleteRangeIsNumeric(data: map<nat, Event>, lo: nat, hi: nat)
    requires lo < EID_BOUND && hi < EID_BOUND
    requires forall e :: e in data ==> e < EID_BOUND
    ensures DeleteRange(data, lo, hi) == map e | e in data && !(lo <= e <= hi) :: data[e]
  {
    forall e | e in data
      ensures (LexLeq(ToIndex(lo), ToIndex(e)) && LexLeq(ToIndex(e), ToIndex(hi))) <==> lo <= e <= hi
    {
      PaddingPreservesOrder(lo, e);
      PaddingPreservesOrder(e, hi);
    }
  }

  /** The key range that is deleted for a record list. */
  predicate InRange(recs: seq<Record>, e: nat) {
    recs != [] && recs[0].eid <= e <= recs[|recs| - 1].eid
  }

  lemma RowIdsSmall(s: State, e: nat)
    requires Sound(s) && e in s.data
    ensures e < EID_BOUND
  {
    assert In(s.records, Record(e, s.data[e].time));
  }

  lemma ListEnds(s: State, bin: nat)
    requires Sound(s) && bin in s.records
    ensures var recs := s.records[bin];
            recs != [] && recs[0].eid < EID_BOUND && recs[|recs| - 1].eid < EID_BOUND
  {
    var recs := s.records[bin];
    assert recs[0] in recs && recs[|recs| - 1] in recs;
    assert In(s.records, recs[0]) && In(s.records, recs[|recs| - 1]);
  }

  lemma RangeDeleted(s: State, bin: nat)
    requires Sound(s) && bin in s.records
    ensures var recs := s.records[bin];
            recs != [] &&
            DeleteRange(s.data, recs[0].eid, recs[|recs| - 1].eid) == map e | e in s.data && !InRange(recs, e) :: s.data[e]
  {
    hide Sound, DeleteRange;
    ListEnds(s, bin);
    forall e | e in s.data
      ensures e < EID_BOUND
    {
      RowIdsSmall(s, e);
    }
    DeleteRangeIsNumeric(s.data, s.records[bin][0].eid, s.records[bin][|s.records[bin]| - 1].eid);
  }

  lemma SingleDeleted(s: State, bin: nat)
    requires Lists(s.records) && bin in s.records && |s.records[bin]| == 1 && BinExpired(bin, s.expireTime)
    ensures s.data - ExpiredEids(s.records[bin], s.expireTime) ==
            map e | e in s.data && !InRange(s.records[bin], e) :: s.data[e]
  {
    var recs := s.records[bin];
    assert recs == [recs[0]];
    assert recs[0].time / 60 == bin;
    assert ExpiredEids(recs, s.expireTime) == {recs[0].eid} by {
      assert recs[0] in recs && recs[0].time <= s.expireTime;
    }
  }

  /** Expiring a bin takes every row between its first and last id, whichever bin the row is of. */
  lemma ExpiryTakesRange(s: State, bin: nat)
    requires Sound(s) && AllQueriesExecuted(s) && bin in s.records && BinExpired(bin, s.expireTime)
    ensures ExpireRecords(s, bin, true) ==
            s.(data := map e | e in s.data && !InRange(s.records[bin], e) :: s.data[e], records := s.records - {bin})
  {
    hide DeleteRange, Persisting, ExpiredEids, InRange;
    RangeDeleted(s, bin);
    if |s.records[bin]| == 1 {
      SingleDeleted(s, bin);
    }
  }

  /** The rows of the bin lie in that range. */
  lemma OwnRowsInRange(s: State, bin: nat, e: nat)
    requires Sound(s) && bin in s.records && e in s.data && s.data[e].time / 60 == bin
    ensures InRange(s.records[bin], e)
  {
    var recs := s.records[bin];
    var r := Record(e, s.data[e].time);
    assert In(s.records, r);
    var i :| 0 <= i < |recs| && recs[i] == r;
  }

  /** A row of another bin with an id between the first and the last one of this bin. */
  ghost predicate Intruder(s: State, bin: nat, e: nat) {
    e in s.data && s.data[e].time / 60 != bin && InRange(RecordsAt(s.records, bin), e)
  }

  /** Deleting by key range removes exactly the bin's rows if and only if no row of another bin has
      an id inside the range. */
  lemma RangeExactIff(s: State, bin: nat)
    requires Sound(s) && AllQueriesExecuted(s) && bin in s.records && BinExpired(bin, s.expireTime)
    ensures ExpireRecords(s, bin, true).data == RowsOutside(s.data, {bin}) <==> forall e :: !Intruder(s, bin, e)
  {
    hide Sound, InRange, ExpireRecords;
    ExpiryTakesRange(s, bin);
    var left := ExpireRecords(s, bin, true).data;
    forall e | e in s.data && s.data[e].time / 60 == bin
      ensures InRange(s.records[bin], e)
    {
      OwnRowsInRange(s, bin, e);
    }
    if e :| Intruder(s, bin, e) {
      assert e !in left && e in RowsOutside(s.data, {bin});
    } else {
      forall e | e in s.data
        ensures InRange(s.records[bin], e) <==> s.data[e].time / 60 == bin
      {
        assert !Intruder(s, bin, e);
      }
    }
  }

  lemma OrderedHasNoIntruder(s: State, bin: nat, e: nat)
    requires Indexed(s.data, s.records, s.index) && Ordered(s.records) && bin in s.records
    ensures !Intruder(s, bin, e)
  {
    if e in s.data {
      var recs := s.records[bin];
      assert In(s.records, Record(e, s.data[e].time));
      assert recs[0] in recs && recs[|recs| - 1] in recs;
      assert In(s.records, recs[0]) && In(s.records, recs[|recs| - 1]);
    }
  }

  /** With events in time order, deleting the key range of an expired bin removes exactly that bin's rows. */
  lemma BinExpiryExact(s: State, bin: nat)
    requires Inv(s) && AllQueriesExecuted(s)
    requires bin in s.records && BinExpired(bin, s.expireTime)
    ensures ExpireRecords(s, bin, true) ==
            s.(data := RowsOutside(s.data, {bin}), records := s.records - {bin})
  {
    InvIsSound(s);
    forall e
      ensures !Intruder(s, bin, e)
    {
      OrderedHasNoIntruder(s, bin, e);
    }
    hide Inv, Sound, ExpireRecords;
    RangeExactIff(s, bin);
    ExpiryTakesRange(s, bin);
  }

  // ----- all expired bins -----

  function Excluding(bins: seq<nat>, gone: set<nat>): seq<nat> {
    if bins == [] then []
    else
      var rest := Excluding(bins[..|bins| - 1], gone);
      if bins[|bins| - 1] in gone then rest else rest + [bins[|bins| - 1]]
  }

  lemma {:induction false} WithoutExcluding(bins: seq<nat>, gone: set<nat>, b: nat)
    ensures Without(Excluding(bins, gone), b) == Excluding(bins, gone + {b})
  {
    if bins != [] {
      WithoutExcluding(bins[..|bins| - 1], gone, b);
      var rest := Excluding(bins[..|bins| - 1], gone);
      var last := bins[|bins| - 1];
      assert (rest + [last])[..|rest|] == rest;
    }
  }

  lemma {:induction false} ExcludingNothing(bins: seq<nat>)
    ensures Excluding(bins, {}) == bins
  {
    if bins != [] {
      ExcludingNothing(bins[..|bins| - 1]);
      assert bins[..|bins| - 1] + [bins[|bins| - 1]] == bins;
    }
  }

  function ToSet(bins: seq<nat>): set<nat> {
    set b | b in bins
  }

  lemma {:induction false} WithoutEachIs(bins: seq<nat>, expirations: seq<nat>)
    ensures WithoutEach(bins, expirations) == Excluding(bins, ToSet(expirations))
  {
    if expirations == [] {
      assert ToSet(expirations) == {};
      ExcludingNothing(bins);
    } else {
      var init, last := expirations[..|expirations| - 1], expirations[|expirations| - 1];
      WithoutEachIs(bins, init);
      assert expirations == init + [last];
      assert ToSet(expirations) == ToSet(init) + {last};
      WithoutExcluding(bins, ToSet(init), last);
    }
  }

  lemma {:induction false} ExcludingContents(bins: seq<nat>, gone: set<nat>)
    ensures forall b :: b in Excluding(bins, gone) <==> b in bins && b !in gone
    ensures Distinct(bins) ==> Distinct(Excluding(bins, gone))
  {
    if bins != [] {
      var init, last := bins[..|bins| - 1], bins[|bins| - 1];
      ExcludingContents(init, gone);
      assert bins == init + [last];
      if Distinct(bins) {
        assert last !in init;
      }
    }
  }

  /** Some bin in `gone` has a range that covers the id. */
  ghost predicate Taken(records: map<nat, seq<Record>>, gone: set<nat>, e: nat) {
    exists b :: b in gone && InRange(RecordsAt(records, b), e)
  }

  ghost function RowsLeft(data: map<nat, Event>, records: map<nat, seq<Record>>, gone: set<nat>): map<nat, Event> {
    map e | e in data && !Taken(records, gone, e) :: data[e]
  }

  /** The store after range deletion of some bins. */
  ghost function TakeBins(s: State, gone: set<nat>): State {
    s.(data := RowsLeft(s.data, s.records, gone), records := s.records - gone, index := Excluding(s.index, gone))
  }

  lemma DroppedRecords(records: map<nat, seq<Record>>, gone: set<nat>)
    ensures forall r :: In(records - gone, r) <==> In(records, r) && r.time / 60 !in gone
    ensures Lists(records) ==> Lists(records - gone)
    ensures Ordered(records) ==> Ordered(records - gone)
  {
    var after := records - gone;
    assert forall b :: b in after <==> b in records && b !in gone;
    assert forall b :: b in after ==> after[b] == records[b];
  }

  lemma LeftAreRecorded(s: State, gone: set<nat>)
    requires Sound(s)
    ensures RowsRecorded(RowsLeft(s.data, s.records, gone), s.records - gone)
  {
    hide InRange, Lists, OneRecordEach, IndexLists, Growing;
    DroppedRecords(s.records, gone);
    var left := RowsLeft(s.data, s.records, gone);
    forall e | e in left
      ensures In(s.records - gone, Record(e, left[e].time))
    {
      var b := s.data[e].time / 60;
      assert In(s.records, Record(e, s.data[e].time));
      if b in gone {
        OwnRowsInRange(s, b, e);
      }
    }
  }

  lemma TakeBinsSound(s: State, gone: set<nat>)
    requires Sound(s)
    ensures Sound(TakeBins(s, gone))
  {
    LeftAreRecorded(s, gone);
    hide RowsLeft;
    DroppedRecords(s.records, gone);
    ExcludingContents(s.index, gone);
  }

  lemma ExpireIgnoresIndex(s: State, index: seq<nat>, bin: nat)
    ensures ExpireRecords(s.(index := index), bin, true) == ExpireRecords(s, bin, true).(index := index)
  {
  }

  lemma TakeTwice(data: map<nat, Event>, records: map<nat, seq<Record>>, gone: set<nat>, bin: nat)
    requires bin in records && bin !in gone
    ensures var once := RowsLeft(data, records, gone);
            (map e | e in once && !InRange(records[bin], e) :: once[e]) == RowsLeft(data, records, gone + {bin})
    ensures (records - gone) - {bin} == records - (gone + {bin})
  {
    hide InRange;
    assert InRange(records[bin], 0) == InRange(RecordsAt(records, bin), 0);
    forall e: nat
      ensures Taken(records, gone + {bin}, e) <==> Taken(records, gone, e) || InRange(records[bin], e)
    {
      if InRange(records[bin], e) {
        assert bin in gone + {bin} && InRange(RecordsAt(records, bin), e);
      }
    }
  }

  /** One more bin after the bins in `gone`. */
  lemma ExpireNext(s: State, gone: set<nat>, bin: nat)
    requires Sound(s) && AllQueriesExecuted(s)
    requires bin in s.records && bin !in gone && BinExpired(bin, s.expireTime)
    ensures ExpireRecords(TakeBins(s, gone).(index := s.index), bin, true) == TakeBins(s, gone + {bin}).(index := s.index)
  {
    hide Sound, RowsLeft, ExpireRecords, InRange;
    var d := TakeBins(s, gone);
    TakeBinsSound(s, gone);
    ExpiryTakesRange(d, bin);
    TakeTwice(s.data, s.records, gone, bin);
    ExpireIgnoresIndex(d, s.index, bin);
  }

  lemma {:induction false} ExpireEachIs(s: State, expirations: seq<nat>, gone: set<nat>)
    requires Sound(s) && AllQueriesExecuted(s)
    requires Distinct(expirations) && gone == ToSet(expirations)
    requires forall b :: b in gone ==> b in s.records && BinExpired(b, s.expireTime)
    ensures ExpireEach(s, expirations) == TakeBins(s, gone).(index := s.index)
  {
    hide Sound, ExpireRecords;
    if expirations == [] {
      assert RowsLeft(s.data, s.records, {}) == s.data;
    } else {
      hide RowsLeft;
      var init, last := expirations[..|expirations| - 1], expirations[|expirations| - 1];
      assert expirations == init + [last];
      assert gone == ToSet(init) + {last};
      ExpireEachIs(s, init, ToSet(init));
      ExpireNext(s, ToSet(init), last);
    }
  }

  lemma {:induction false} ExpirationsAre(bins: seq<nat>, expire: nat)
    ensures forall b :: b in Expirations(bins, expire) <==> b in bins && BinExpired(b, expire)
    ensures Distinct(bins) ==> Distinct(Expirations(bins, expire))
  {
    if bins != [] {
      var init, last := bins[..|bins| - 1], bins[|bins| - 1];
      ExpirationsAre(init, expire);
      assert bins == init + [last];
      if Distinct(bins) {
        assert last !in init;
      }
    }
  }

  function ExpiredBins(s: State): set<nat> {
    set b | b in s.index && BinExpired(b, s.expireTime)
  }

  /** What an index query leaves behind, in whatever order the events arrived. */
  ghost function Swept(s: State): State {
    if AllQueriesExecuted(s) then TakeBins(s, ExpiredBins(s)) else s
  }

  lemma ExpireIndexesIs(s: State)
    requires Sound(s) && AllQueriesExecuted(s)
    ensures ExpireIndexes(s, s.index, Expirations(s.index, s.expireTime)) == TakeBins(s, ExpiredBins(s))
  {
    hide RowsLeft;
    var expirations := Expirations(s.index, s.expireTime);
    ExpirationsAre(s.index, s.expireTime);
    assert ToSet(expirations) == ExpiredBins(s);
    ExpireEachIs(s, expirations, ExpiredBins(s));
    WithoutEachIs(s.index, expirations);
  }

  lemma NothingToTake(s: State)
    requires Expirations(s.index, s.expireTime) == []
    ensures TakeBins(s, ExpiredBins(s)) == s
  {
    ExpirationsAre(s.index, s.expireTime);
    assert ExpiredBins(s) == {};
    ExcludingNothing(s.index);
    assert RowsLeft(s.data, s.records, {}) == s.data;
    assert s.records - {} == s.records;
  }

  /** An index query takes the key ranges of the expired bins, and keeps the store sound. */
  lemma ExpirySweeps(s: State, sort: bool)
    requires Sound(s)
    ensures Expire(s, sort) == Swept(s)
    ensures Sound(Swept(s))
  {
    hide Sound, TakeBins;
    SoundNumbers(s);
    PartialBranchNeverRuns(s, s.index);
    TakeBinsSound(s, ExpiredBins(s));
    if Expirations(s.index, s.expireTime) == [] {
      NothingToTake(s);
    } else if AllQueriesExecuted(s) {
      ExpireIndexesIs(s);
    }
  }

  lemma SoundNumbers(s: State)
    requires Sound(s)
    ensures Counters(s) && Top(s) < EID_BOUND && s.expireTime % 60 == 0
  {
  }

  /** The store with some bins dropped from all three key families. */
  function DropBins(s: State, gone: set<nat>): State {
    s.(data := RowsOutside(s.data, gone), records := s.records - gone, index := Excluding(s.index, gone))
  }

  lemma DropBinsInv(s: State, gone: set<nat>)
    requires Inv(s)
    ensures Inv(DropBins(s, gone))
  {
    DroppedRecords(s.records, gone);
    ExcludingContents(s.index, gone);
  }

  /** The store without the rows of expired bins: what expiry is meant to leave behind. */
  function Purged(s: State): State {
    if AllQueriesExecuted(s) then DropBins(s, ExpiredBins(s)) else s
  }

  /** A row that is not expired but has an id inside the range of an expired bin. */
  ghost predicate Caught(s: State, e: nat) {
    e in s.data && s.data[e].time / 60 !in ExpiredBins(s) && Taken(s.records, ExpiredBins(s), e)
  }

  /** An index query removes exactly the rows of the expired bins if and only if the gate is closed or
      no other row is caught in the range of an expired bin. */
  lemma ExpiryExactIff(s: State, sort: bool)
    requires Sound(s)
    ensures Expire(s, sort) == Purged(s) <==> !AllQueriesExecuted(s) || forall e :: !Caught(s, e)
  {
    hide Expire, ExpiredBins, Excluding, InRange, Growing, Lists, OneRecordEach;
    ExpirySweeps(s, sort);
    var gone := ExpiredBins(s);
    var left, kept := RowsLeft(s.data, s.records, gone), RowsOutside(s.data, gone);
    forall e | e in s.data && s.data[e].time / 60 in gone
      ensures Taken(s.records, gone, e)
    {
      assert In(s.records, Record(e, s.data[e].time));
      OwnRowsInRange(s, s.data[e].time / 60, e);
    }
    hide Sound, Taken;
    if e :| Caught(s, e) {
      assert e !in left && e in kept;
    } else {
      forall e | e in s.data
        ensures Taken(s.records, gone, e) <==> s.data[e].time / 60 in gone
      {
        assert !Caught(s, e);
      }
    }
  }

  lemma OrderedCatchesNone(s: State, e: nat)
    requires Inv(s)
    ensures !Caught(s, e)
  {
    if Caught(s, e) {
      hide InRange, Inv;
      var b :| b in ExpiredBins(s) && InRange(RecordsAt(s.records, b), e);
      InvIndexed(s);
      OrderedHasNoIntruder(s, b, e);
    }
  }

  lemma InvIndexed(s: State)
    requires Inv(s)
    ensures Indexed(s.data, s.records, s.index) && Ordered(s.records)
  {
  }

  /** In every reachable state with events in time order an index query drops the expired bins, all
      their rows and no other row. */
  lemma ExpiryExact(s: State, sort: bool)
    requires Inv(s)
    ensures Expire(s, sort) == Purged(s)
    ensures Inv(Purged(s))
  {
    hide Inv, Expire, Caught, Purged;
    InvIsSound(s);
    forall e
      ensures !Caught(s, e)
    {
      OrderedCatchesNone(s, e);
    }
    ExpiryExactIff(s, sort);
    PurgedInv(s);
  }

  lemma PurgedInv(s: State)
    requires Inv(s)
    ensures Inv(Purged(s))
  {
    hide Inv;
    DropBinsInv(s, ExpiredBins(s));
  }

  /** A row goes exactly when its minute has passed completely before the expiry time. */
  lemma PurgedRows(s: State, e: nat)
    requires Inv(s) && e in s.data
    ensures e !in Purged(s).data <==> AllQueriesExecuted(s) && s.data[e].time < s.expireTime
    ensures e in Purged(s).data ==> Purged(s).data[e] == s.data[e]
  {
    assert In(s.records, Record(e, s.data[e].time));
    var b := s.data[e].time / 60;
    NoPartialBin(b, s.expireTime);
    assert BinExpired(b, s.expireTime) <==> s.data[e].time < s.expireTime;
  }

  // ----- ids -----

  /** Ids are issued consecutively, each below the persisted block end. */
  lemma {:induction false} IssueEidsIs(s: State, n: nat)
    requires Counters(s)
    ensures var t := IssueEids(s, n);
            && Counters(t) && Top(t) == Top(s) + n && s.eidKey <= t.eidKey
            && (n > 0 ==> t.lastEid == Top(s) + n)
            && t == s.(eidKey := t.eidKey, lastEid := t.lastEid)
  {
    if n > 0 {
      hide Counters;
      IssueEidsIs(s, n - 1);
      IssueEidIs(IssueEids(s, n - 1));
      hide IssueEid, Top;
    }
  }

  lemma IssueEidIs(s: State)
    requires Counters(s)
    ensures var t := IssueEid(s);
            && Counters(t) && Top(t) == t.lastEid == Top(s) + 1 && s.eidKey <= t.eidKey
            && t == s.(eidKey := t.eidKey, lastEid := t.lastEid)
  {
  }

  lemma IssueEidsInv(s: State, n: nat)
    requires Inv(s) && Top(s) + n < EID_BOUND
    ensures Inv(IssueEids(s, n))
  {
    IssueEidsIs(s, n);
  }

  // ----- adding -----

  lemma {:induction false} StoredRows(data: map<nat, Event>, first: nat, rows: seq<string>, time: nat)
    ensures var d := StoreRows(data, first, rows, time);
            && (forall e :: e in d <==> e in data || first <= e < first + |rows|)
            && (forall e :: e in d ==> d[e] == if first <= e < first + |rows| then Event(time, rows[e - first]) else data[e])
  {
    if rows != [] {
      StoredRows(data, first, rows[..|rows| - 1], time);
    }
  }

  /** Appending a batch adds exactly its records. */
  lemma AppendedRecords(records: map<nat, seq<Record>>, first: nat, n: nat, time: nat, r: Record)
    requires n > 0
    ensures var news := NewRecords(EidRange(first, n), time);
            In(records[time / 60 := RecordsAt(records, time / 60) + news], r) <==>
            In(records, r) || (r.time == time && first <= r.eid < first + n)
  {
    var news := NewRecords(EidRange(first, n), time);
    var prior := RecordsAt(records, time / 60);
    assert forall x :: x in prior + news <==> x in prior || x in news;
    if r.time == time && first <= r.eid < first + n {
      assert news[r.eid - first] == r;
    }
  }

  lemma AppendedLists(records: map<nat, seq<Record>>, first: nat, n: nat, time: nat)
    requires Lists(records) && n > 0
    requires forall r :: In(records, r) ==> r.eid < first
    ensures Lists(records[time / 60 := RecordsAt(records, time / 60) + NewRecords(EidRange(first, n), time)])
  {
    var bin := time / 60;
    var prior := RecordsAt(records, bin);
    forall i | 0 <= i < |prior|
      ensures prior[i].eid < first && prior[i].time / 60 == bin
    {
      assert prior[i] in prior;
      assert In(records, prior[i]);
    }
  }

  ghost predicate AllBefore(records: map<nat, seq<Record>>, first: nat) {
    forall r :: In(records, r) ==> r.eid < first
  }

  lemma AppendedUnique(records: map<nat, seq<Record>>, after: map<nat, seq<Record>>, first: nat, n: nat, time: nat)
    requires OneRecordEach(records) && AllBefore(records, first)
    requires forall r :: In(after, r) <==> In(records, r) || (r.time == time && first <= r.eid < first + n)
    ensures OneRecordEach(after)
  {
  }

  lemma AppendedIndex(records: map<nat, seq<Record>>, index: seq<nat>, bin: nat, list: seq<Record>)
    requires IndexLists(index, records) && Lists(records)
    ensures IndexLists(if RecordsAt(records, bin) == [] then index + [bin] else index, records[bin := list])
  {
  }

  /** Writing a batch keeps the key families in agreement, whatever its time is. */
  lemma RecordEventsIndexed(s: State, first: nat, rows: seq<string>, time: nat)
    requires Indexed(s.data, s.records, s.index) && AllBefore(s.records, first) && rows != []
    ensures var t := RecordEvents(s.(data := StoreRows(s.data, first, rows, time)), EidRange(first, |rows|), time);
            && Indexed(t.data, t.records, t.index)
            && (forall r :: In(t.records, r) <==> In(s.records, r) || (r.time == time && first <= r.eid < first + |rows|))
            && t == s.(data := StoreRows(s.data, first, rows, time), records := t.records, index := t.index)
  {
    hide Lists, OneRecordEach, IndexLists, RowsRecorded, StoreRows, In;
    var t := RecordEvents(s.(data := StoreRows(s.data, first, rows, time)), EidRange(first, |rows|), time);
    forall r
      ensures In(t.records, r) <==> In(s.records, r) || (r.time == time && first <= r.eid < first + |rows|)
    {
      AppendedRecords(s.records, first, |rows|, time, r);
    }
    AppendedLists(s.records, first, |rows|, time);
    AppendedUnique(s.records, t.records, first, |rows|, time);
    AppendedIndex(s.records, s.index, time / 60, t.records[time / 60]);
    RowsStillRecorded(s.data, s.records, t.records, first, rows, time);
  }

  lemma RecordsWritten(s: State, eids: seq<nat>, time: nat)
    requires eids != []
    ensures RecordEvents(s, eids, time).records ==
            s.records[time / 60 := RecordsAt(s.records, time / 60) + NewRecords(eids, time)]
  {
  }

  lemma RowsStillRecorded(data: map<nat, Event>, records: map<nat, seq<Record>>, after: map<nat, seq<Record>>,
                          first: nat, rows: seq<string>, time: nat)
    requires RowsRecorded(data, records)
    requires forall r :: In(after, r) <==> In(records, r) || (r.time == time && first <= r.eid < first + |rows|)
    ensures RowsRecorded(StoreRows(data, first, rows, time), after)
  {
    StoredRows(data, first, rows, time);
    var d := StoreRows(data, first, rows, time);
    forall e | e in d
      ensures In(after, Record(e, d[e].time))
    {
      if !(first <= e < first + |rows|) {
        assert In(records, Record(e, data[e].time));
      }
    }
  }

  lemma PriorBounds(records: map<nat, seq<Record>>, bin: nat, first: nat, time: nat, i: nat)
    requires Lists(records) && i < |RecordsAt(records, bin)|
    requires forall r :: In(records, r) ==> r.eid < first && r.time <= time
    ensures RecordsAt(records, bin)[i].eid < first && RecordsAt(records, bin)[i].time <= time
  {
    var prior := RecordsAt(records, bin);
    assert prior[i] in prior;
    assert In(records, prior[i]);
  }

  /** Ids grow strictly and times do not fall along the list. */
  ghost predicate TimeOrdered(list: seq<Record>) {
    forall i, j :: 0 <= i < j < |list| ==> list[i].eid < list[j].eid && list[i].time <= list[j].time
  }

  lemma OrderedLists(records: map<nat, seq<Record>>, b: nat)
    requires Ordered(records)
    ensures TimeOrdered(RecordsAt(records, b))
  {
  }

  lemma AppendedInOrder(prior: seq<Record>, first: nat, n: nat, time: nat)
    requires TimeOrdered(prior) && forall i :: 0 <= i < |prior| ==> prior[i].eid < first && prior[i].time <= time
    ensures TimeOrdered(prior + NewRecords(EidRange(first, n), time))
  {
  }

  lemma AppendedListOrder(records: map<nat, seq<Record>>, first: nat, n: nat, time: nat)
    requires Lists(records) && Ordered(records)
    requires forall r :: In(records, r) ==> r.eid < first && r.time <= time
    ensures TimeOrdered(RecordsAt(records, time / 60) + NewRecords(EidRange(first, n), time))
  {
    hide TimeOrdered, Ordered, Lists, In, NewRecords, EidRange;
    var prior := RecordsAt(records, time / 60);
    OrderedLists(records, time / 60);
    forall i | 0 <= i < |prior|
      ensures prior[i].eid < first && prior[i].time <= time
    {
      PriorBounds(records, time / 60, first, time, i);
    }
    AppendedInOrder(prior, first, n, time);
  }

  lemma OrderedFrom(records: map<nat, seq<Record>>)
    requires forall b :: b in records ==> TimeOrdered(records[b])
    requires forall r, r' :: In(records, r) && In(records, r') && r.time / 60 < r'.time / 60 ==> r.eid < r'.eid
    ensures Ordered(records)
  {
  }

  lemma OrderedAcross(records: map<nat, seq<Record>>, r: Record, r': Record)
    requires Ordered(records) && In(records, r) && In(records, r') && r.time / 60 < r'.time / 60
    ensures r.eid < r'.eid
  {
  }

  lemma AppendedOrdered(records: map<nat, seq<Record>>, first: nat, n: nat, time: nat)
    requires Lists(records) && Ordered(records) && n > 0
    requires forall r :: In(records, r) ==> r.eid < first && r.time <= time
    ensures Ordered(records[time / 60 := RecordsAt(records, time / 60) + NewRecords(EidRange(first, n), time)])
  {
    hide Lists, NewRecords, EidRange, In, Ordered, TimeOrdered;
    var after: map<nat, seq<Record>> := records[time / 60 := RecordsAt(records, time / 60) + NewRecords(EidRange(first, n), time)];
    forall b | b in after
      ensures TimeOrdered(after[b])
    {
      OrderedLists(records, b);
      AppendedListOrder(records, first, n, time);
    }
    forall r, r' | In(after, r) && In(after, r') && r.time / 60 < r'.time / 60
      ensures r.eid < r'.eid
    {
      AppendedRecords(records, first, n, time, r);
      AppendedRecords(records, first, n, time, r');
      if In(records, r) && In(records, r') {
        OrderedAcross(records, r, r');
      }
    }
    OrderedFrom(after);
  }

  // ----- other operations -----

  lemma LoadMarkInv(s: State, q: string, now: nat)
    requires Inv(s)
    ensures Inv(LoadMark(s, q, now))
  {
  }

  lemma InvIgnores(s: State, eid: nat, expire: nat, marks: map<string, Mark>)
    requires Inv(s) && expire % 60 == 0
    ensures Inv(s.(optimizeEid := eid, expireTime := expire, marks := marks))
  {
  }

  /** The minimum expiration is the first full minute beyond three times the largest interval. */
  lemma ConfigureIs(s: State, maxInterval: nat, count: nat)
    ensures var t := Configure(s, maxInterval, count);
            && t.minExpiration % 60 == 0 && 3 * maxInterval < t.minExpiration <= 3 * maxInterval + 60
            && t.queryCount == count && t.queries == {}
            && t == s.(minExpiration := t.minExpiration, queryCount := count, queries := {})
  {
  }

  /** A read changes only what expiry changes, the watermark fields and the expiry time. */
  lemma GetShape(s: State, flags: Flags, q: string, start: nat, stop: nat, now: nat)
    requires EffectiveExpiry(s, flags) <= WORD
    ensures var t, x := Expire(s, true), Get(s, flags, q, start, stop, now);
            && x == t.(optimizeEid := x.optimizeEid, expireTime := x.expireTime, marks := x.marks)
            && x.expireTime == (if flags.expiry > 0 then Floor60(Sub64(now, EffectiveExpiry(s, flags))) else t.expireTime)
            && (q == "" ==> x.marks == t.marks)
  {
    hide Expire, Fetched, Floor60;
  }

  lemma ConfigureInv(s: State, maxInterval: nat, count: nat)
    requires Inv(s)
    ensures var t := Configure(s, maxInterval, count); Inv(t) && t.minExpiration >= 3 * maxInterval + 1
  {
  }

  /** A restart resumes at the persisted end of the id block. */
  lemma RestartInv(s: State)
    requires Inv(s) && s.eidKey < EID_BOUND
    ensures Inv(Restart(s)) && Top(s) <= Top(Restart(s))
  {
  }
}
