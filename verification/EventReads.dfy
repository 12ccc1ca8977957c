/** Time-window reads: the minute index agrees with a plain scan of the stored rows. */
module EventReads {
  import opened EventModel
  import opened EventInvariant
  import opened EventEviction

  ghost predicate Increasing(xs: seq<nat>) {
    forall i, j :: 0 <= i < j < |xs| ==> xs[i] < xs[j]
  }

  ghost predicate EidsIncreasing(recs: seq<Record>) {
    forall i, j :: 0 <= i < j < |recs| ==> recs[i].eid < recs[j].eid
  }

  ghost predicate EidsDistinct(recs: seq<Record>) {
    forall i, j :: 0 <= i < j < |recs| ==> recs[i].eid != recs[j].eid
  }

  // ----- bins -----

  lemma {:induction false} InsertSorted(bin: nat, sorted: seq<nat>)
    requires Increasing(sorted) && bin !in sorted
    ensures Increasing(Insert(bin, sorted))
    ensures forall b :: b in Insert(bin, sorted) <==> b == bin || b in sorted
  {
    if sorted != [] && bin > sorted[0] {
      assert Increasing(sorted[1..]);
      InsertSorted(bin, sorted[1..]);
      var rest := Insert(bin, sorted[1..]);
      assert forall b :: b in sorted <==> b == sorted[0] || b in sorted[1..];
      forall i | 0 <= i < |rest|
        ensures sorted[0] < rest[i]
      {
        assert rest[i] in rest;
      }
    }
  }

  /** Distinct bins come back in strictly increasing order, none lost and none added. */
  lemma {:induction false} SortSorts(bins: seq<nat>)
    requires Distinct(bins)
    ensures Increasing(Sort(bins)) && forall b :: b in Sort(bins) <==> b in bins
  {
    if bins != [] {
      SortSorts(bins[1..]);
      assert bins[0] !in bins[1..];
      InsertSorted(bins[0], Sort(bins[1..]));
    }
  }

  lemma {:induction false} SelectedAre(bins: seq<nat>, start: nat, stop: nat)
    ensures forall b :: b in SelectedBins(bins, start, stop) <==> b in bins && BinSelected(b, start, stop)
    ensures Distinct(bins) ==> Distinct(SelectedBins(bins, start, stop))
  {
    if bins != [] {
      var init, last := bins[..|bins| - 1], bins[|bins| - 1];
      SelectedAre(init, start, stop);
      assert bins == init + [last];
      if Distinct(bins) {
        assert last !in init;
      }
    }
  }

  // ----- records -----

  lemma {:induction false} UnseenContents(recs: seq<Record>, optimize: bool, time: nat, eid: nat)
    ensures forall r :: r in Unseen(recs, optimize, time, eid) <==> r in recs && !Skipped(r, optimize, time, eid)
  {
    if recs != [] {
      hide Skipped;
      var init, last := recs[..|recs| - 1], recs[|recs| - 1];
      UnseenContents(init, optimize, time, eid);
      assert recs == init + [last];
    }
  }

  /** One more record at the end keeps ids distinct, or increasing, if it is so related to all before it. */
  lemma OneRecordMore(recs: seq<Record>, r: Record)
    ensures EidsDistinct(recs) && (forall x :: x in recs ==> x.eid != r.eid) ==> EidsDistinct(recs + [r])
    ensures EidsIncreasing(recs) && (forall x :: x in recs ==> x.eid < r.eid) ==> EidsIncreasing(recs + [r])
  {
    assert forall i :: 0 <= i < |recs| ==> recs[i] in recs;
  }

  lemma LastRelated(recs: seq<Record>)
    requires recs != []
    ensures var init, last := recs[..|recs| - 1], recs[|recs| - 1];
            && (EidsDistinct(recs) ==> EidsDistinct(init) && forall x :: x in init ==> x.eid != last.eid)
            && (EidsIncreasing(recs) ==> EidsIncreasing(init) && forall x :: x in init ==> x.eid < last.eid)
  {
  }

  lemma {:induction false} UnseenAre(recs: seq<Record>, optimize: bool, time: nat, eid: nat)
    ensures forall r :: r in Unseen(recs, optimize, time, eid) <==> r in recs && !Skipped(r, optimize, time, eid)
    ensures EidsDistinct(recs) ==> EidsDistinct(Unseen(recs, optimize, time, eid))
    ensures EidsIncreasing(recs) ==> EidsIncreasing(Unseen(recs, optimize, time, eid))
  {
    UnseenContents(recs, optimize, time, eid);
    if recs != [] {
      hide Skipped, EidsDistinct, EidsIncreasing;
      var init := recs[..|recs| - 1];
      UnseenAre(init, optimize, time, eid);
      LastRelated(recs);
      OneRecordMore(Unseen(init, optimize, time, eid), recs[|recs| - 1]);
    }
  }

  lemma {:induction false} GatherAre(records: map<nat, seq<Record>>, bins: seq<nat>, optimize: bool, time: nat, eid: nat)
    requires Lists(records)
    ensures forall r :: r in Gather(records, bins, optimize, time, eid) <==>
                        In(records, r) && r.time / 60 in bins && !Skipped(r, optimize, time, eid)
  {
    if bins != [] {
      var init, last := bins[..|bins| - 1], bins[|bins| - 1];
      GatherAre(records, init, optimize, time, eid);
      assert bins == init + [last];
      var list := RecordsAt(records, last);
      UnseenAre(list, optimize, time, eid);
      assert forall r :: r in list <==> In(records, r) && r.time / 60 == last;
      assert forall r :: r in Gather(records, bins, optimize, time, eid) <==>
                         r in Gather(records, init, optimize, time, eid) || r in Unseen(list, optimize, time, eid);
    }
  }

  lemma ConcatIncreasing(a: seq<Record>, b: seq<Record>)
    requires EidsIncreasing(a) && EidsIncreasing(b)
    requires forall r, r' :: r in a && r' in b ==> r.eid < r'.eid
    ensures EidsIncreasing(a + b)
  {
    forall i, j | 0 <= i < |a| && 0 <= j < |b|
      ensures a[i].eid < b[j].eid
    {
      assert a[i] in a && b[j] in b;
    }
  }

  /** In reachable states bins taken in order give ids in order. */
  lemma {:induction false} GatherIncreasing(records: map<nat, seq<Record>>, bins: seq<nat>, optimize: bool, time: nat, eid: nat)
    requires Lists(records) && Ordered(records) && Increasing(bins)
    ensures EidsIncreasing(Gather(records, bins, optimize, time, eid))
  {
    if bins != [] {
      var init, last := bins[..|bins| - 1], bins[|bins| - 1];
      GatherIncreasing(records, init, optimize, time, eid);
      GatherAre(records, init, optimize, time, eid);
      var list := RecordsAt(records, last);
      UnseenAre(list, optimize, time, eid);
      var a, b := Gather(records, init, optimize, time, eid), Unseen(list, optimize, time, eid);
      forall r, r' | r in a && r' in b
        ensures r.eid < r'.eid
      {
        assert In(records, r) && In(records, r') && r.time / 60 < r'.time / 60;
      }
      ConcatIncreasing(a, b);
    }
  }

  lemma ConcatDistinct(a: seq<Record>, b: seq<Record>)
    requires EidsDistinct(a) && EidsDistinct(b)
    requires forall r, r' :: r in a && r' in b ==> r.eid != r'.eid
    ensures EidsDistinct(a + b)
  {
    forall i, j | 0 <= i < |a| && 0 <= j < |b|
      ensures a[i].eid != b[j].eid
    {
      assert a[i] in a && b[j] in b;
    }
  }

  lemma {:induction false} GatherDistinct(records: map<nat, seq<Record>>, bins: seq<nat>, optimize: bool, time: nat, eid: nat)
    requires Lists(records) && OneRecordEach(records) && Distinct(bins)
    ensures EidsDistinct(Gather(records, bins, optimize, time, eid))
  {
    if bins != [] {
      var init, last := bins[..|bins| - 1], bins[|bins| - 1];
      assert last !in init;
      GatherDistinct(records, init, optimize, time, eid);
      GatherAre(records, init, optimize, time, eid);
      var list := RecordsAt(records, last);
      UnseenAre(list, optimize, time, eid);
      var a, b := Gather(records, init, optimize, time, eid), Unseen(list, optimize, time, eid);
      forall r, r' | r in a && r' in b
        ensures r.eid != r'.eid
      {
        assert In(records, r) && In(records, r') && r != r';
      }
      ConcatDistinct(a, b);
    }
  }

  // ----- emitted rows -----

  ghost predicate Emits(data: map<nat, Event>, recs: seq<Record>, start: nat, stop: nat, e: nat) {
    e in data && exists i :: 0 <= i < |recs| && recs[i].eid == e && InWindow(recs[i].time, start, stop)
  }

  lemma {:induction false} EmitAre(data: map<nat, Event>, recs: seq<Record>, start: nat, stop: nat, e: nat)
    ensures e in Emit(data, recs, start, stop) <==> Emits(data, recs, start, stop, e)
  {
    if recs != [] {
      var init := recs[..|recs| - 1];
      EmitAre(data, init, start, stop, e);
      assert forall i :: 0 <= i < |init| ==> init[i] == recs[i];
      if Emits(data, init, start, stop, e) {
        var i :| 0 <= i < |init| && init[i].eid == e && InWindow(init[i].time, start, stop);
        assert recs[i].eid == e;
      }
    }
  }

  lemma {:induction false} EmitIncreasing(data: map<nat, Event>, recs: seq<Record>, start: nat, stop: nat)
    requires EidsIncreasing(recs)
    ensures Increasing(Emit(data, recs, start, stop))
  {
    if recs != [] {
      var init := recs[..|recs| - 1];
      EmitIncreasing(data, init, start, stop);
      var rest := Emit(data, init, start, stop);
      forall i | 0 <= i < |rest|
        ensures rest[i] < recs[|recs| - 1].eid
      {
        EmitAre(data, init, start, stop, rest[i]);
      }
    }
  }

  lemma {:induction false} EmitDistinct(data: map<nat, Event>, recs: seq<Record>, start: nat, stop: nat)
    requires EidsDistinct(recs)
    ensures Distinct(Emit(data, recs, start, stop))
  {
    if recs != [] {
      var init := recs[..|recs| - 1];
      EmitDistinct(data, init, start, stop);
      var rest := Emit(data, init, start, stop);
      forall i | 0 <= i < |rest|
        ensures rest[i] != recs[|recs| - 1].eid
      {
        EmitAre(data, init, start, stop, rest[i]);
      }
    }
  }

  // ----- the window read -----

  lemma InWindowBin(time: nat, start: nat, stop: nat)
    requires InWindow(time, start, stop)
    ensures BinSelected(time / 60, start, stop)
  {
  }

  ghost predicate Agree(rows: seq<nat>, data: map<nat, Event>, start: nat, stop: nat) {
    && Distinct(rows)
    && forall e :: e in rows <==> e in data && InWindow(data[e].time, start, stop)
  }

  /** The read emits exactly the rows of the window that are left after expiry, each once. */
  lemma ReadAgrees(s: State, flags: Flags, start: nat, stop: nat)
    requires !flags.optimize && Distinct(s.index)
    requires var t := Expire(s, true); Indexed(t.data, t.records, t.index) && forall b :: b in t.index ==> b in s.index
    ensures Agree(GetRows(s, flags, start, stop), Expire(s, true).data, start, stop)
  {
    var t := Expire(s, true);
    hide Expire;
    var selected := SelectedBins(s.index, start, stop);
    SelectedAre(s.index, start, stop);
    SortSorts(selected);
    var bins := Sort(selected);
    var recs := Gather(t.records, bins, false, s.optimizeTime, s.optimizeEid);
    GatherAre(t.records, bins, false, s.optimizeTime, s.optimizeEid);
    GatherDistinct(t.records, bins, false, s.optimizeTime, s.optimizeEid);
    EmitDistinct(t.data, recs, start, stop);
    forall e
      ensures e in Emit(t.data, recs, start, stop) <==> e in t.data && InWindow(t.data[e].time, start, stop)
    {
      EmitAre(t.data, recs, start, stop, e);
      if e in t.data {
        var r := Record(e, t.data[e].time);
        assert In(t.records, r);
        if InWindow(r.time, start, stop) {
          InWindowBin(r.time, start, stop);
          assert r in recs;
        }
        forall i | 0 <= i < |recs| && recs[i].eid == e
          ensures recs[i] == r
        {
          assert recs[i] in recs;
        }
      }
    }
  }

  /** In every reachable state the minute index agrees with a scan of the unexpired rows. */
  lemma WindowAgreesWithScan(s: State, flags: Flags, start: nat, stop: nat)
    requires Inv(s) && !flags.optimize
    ensures Agree(GetRows(s, flags, start, stop), Purged(s).data, start, stop)
  {
    ExpiryExact(s, true);
    ExcludingContents(s.index, ExpiredBins(s));
    ReadAgrees(s, flags, start, stop);
  }

  // ----- events arriving out of time order -----

  predicate BinAlive(bin: nat, expire: nat) {
    expire <= bin * 60
  }

  ghost predicate NothingExpires(s: State) {
    !AllQueriesExecuted(s) || forall i :: 0 <= i < |s.index| ==> BinAlive(s.index[i], s.expireTime)
  }

  lemma {:induction false} NoPartialExpiry(s: State, bins: seq<nat>)
    requires !AllQueriesExecuted(s) || forall i :: 0 <= i < |bins| ==> BinAlive(bins[i], s.expireTime)
    ensures ExpirePartial(s, bins) == s
  {
    if bins != [] {
      NoPartialExpiry(s, bins[..|bins| - 1]);
    }
  }

  /** Out-of-order times do not disturb a window read while nothing expires. */
  lemma OutOfOrderWindow(s: State, flags: Flags, start: nat, stop: nat)
    requires Indexed(s.data, s.records, s.index) && !flags.optimize && NothingExpires(s)
    ensures Agree(GetRows(s, flags, start, stop), s.data, start, stop)
  {
    NoPartialExpiry(s, s.index);
    ExpirationsAre(s.index, s.expireTime);
    assert AllQueriesExecuted(s) ==> Expirations(s.index, s.expireTime) == [] by {
      if Expirations(s.index, s.expireTime) != [] {
        assert Expirations(s.index, s.expireTime)[0] in s.index;
      }
    }
    ReadAgrees(s, flags, start, stop);
  }

  /** A batch of rows and the time given to them. */
  datatype Batch = Batch(rows: seq<string>, time: nat)

  function AddAll(s: State, flags: Flags, batches: seq<Batch>): State
    requires flags.max <= WORD
  {
    if batches == [] then s
    else
      var last := batches[|batches| - 1];
      AddBatch(AddAll(s, flags, batches[..|batches| - 1]), flags, last.rows, last.time)
  }

  function RowCount(batches: seq<Batch>): nat {
    if batches == [] then 0 else RowCount(batches[..|batches| - 1]) + |batches[|batches| - 1].rows|
  }

  ghost predicate StoresUpTo(data: map<nat, Event>, n: nat) {
    forall e :: e in data <==> 1 <= e <= n
  }

  ghost predicate Filling(s: State, n: nat) {
    && Indexed(s.data, s.records, s.index) && Counters(s) && s.expireTime == 0
    && Top(s) == n && StoresUpTo(s.data, n) && AllBefore(s.records, n + 1)
  }

  lemma NoOverflow(s: State, flags: Flags, n: nat, k: nat)
    requires flags.max <= WORD && n <= flags.max && Filling(s, n)
    ensures Issued(s, flags, k) == IssueEids(s, k)
  {
    assert Counters(s) && StoresUpTo(s.data, n);
    hide Filling;
    IssueEidsIs(s, k);
    RangeSize(s.data.Keys, 1, n);
    assert |s.data.Keys| == |s.data|;
  }

  lemma AddUnfold(s: State, flags: Flags, rows: seq<string>, time: nat)
    requires flags.max <= WORD && rows != [] && Issued(s, flags, |rows|) == IssueEids(s, |rows|)
    ensures var t := IssueEids(s, |rows|);
            AddBatch(s, flags, rows, time) ==
            RecordEvents(t.(data := StoreRows(t.data, FirstEid(s), rows, time)), EidRange(FirstEid(s), |rows|), time)
  {
  }

  lemma AddAnyTime(s: State, flags: Flags, rows: seq<string>, time: nat, n: nat)
    requires flags.max <= WORD && n <= flags.max && Filling(s, n) && rows != []
    ensures Filling(AddBatch(s, flags, rows, time), n + |rows|)
  {
    hide Indexed, StoresUpTo, AllBefore, RecordEvents, AddBatch, Issued, IssueEids, StoreRows, EidRange;
    NoOverflow(s, flags, n, |rows|);
    IssueEidsIs(s, |rows|);
    AddUnfold(s, flags, rows, time);
    assert FirstEid(s) == n + 1;
    AddedRows(IssueEids(s, |rows|), rows, time, n);
  }

  lemma AddedRows(t: State, rows: seq<string>, time: nat, n: nat)
    requires Indexed(t.data, t.records, t.index) && StoresUpTo(t.data, n) && AllBefore(t.records, n + 1) && rows != []
    ensures var u := RecordEvents(t.(data := StoreRows(t.data, n + 1, rows, time)), EidRange(n + 1, |rows|), time);
            && Indexed(u.data, u.records, u.index)
            && StoresUpTo(u.data, n + |rows|) && AllBefore(u.records, n + |rows| + 1)
            && u == t.(data := u.data, records := u.records, index := u.index)
  {
    hide Indexed, StoreRows;
    RecordEventsIndexed(t, n + 1, rows, time);
    StoredRows(t.data, n + 1, rows, time);
  }

  lemma {:induction false} AddAllFills(flags: Flags, batches: seq<Batch>)
    requires flags.max <= WORD && RowCount(batches) <= flags.max
    ensures Filling(AddAll(Empty(), flags, batches), RowCount(batches))
  {
    if batches != [] {
      var init := batches[..|batches| - 1];
      AddAllFills(flags, init);
      var last := batches[|batches| - 1];
      if last.rows != [] {
        AddAnyTime(AddAll(Empty(), flags, init), flags, last.rows, last.time, RowCount(init));
      }
    }
  }

  /** After any batches with any times, all rows are stored and every window read returns
      exactly the rows of that window, each once. */
  lemma AnyBatchesAnyWindow(flags: Flags, batches: seq<Batch>, start: nat, stop: nat)
    requires !flags.optimize && flags.max <= WORD && RowCount(batches) <= flags.max
    ensures var s := AddAll(Empty(), flags, batches);
            && (forall e :: e in s.data <==> 1 <= e <= RowCount(batches))
            && Agree(GetRows(s, flags, start, stop), s.data, start, stop)
  {
    AddAllFills(flags, batches);
    OutOfOrderWindow(AddAll(Empty(), flags, batches), flags, start, stop);
  }

  // ----- the window genTable builds from time constraints -----

  datatype Op = Equals | GreaterThan | GreaterThanOrEquals | LessThan | LessThanOrEquals | Unsupported

  /** A constraint on the time column with its signed operand. */
  datatype Constraint = Constraint(op: Op, expr: int)

  function ToTime(expr: int): nat {
    expr % WORD
  }

  function Max(a: nat, b: nat): nat { if a < b then b else a }
  function Min(a: nat, b: nat): nat { if b < a then b else a }

  datatype Window = Window(start: nat, stop: nat)

  /** What one constraint does to the window. */
  function NarrowOne(c: Constraint, w: Window): Window {
    var x := ToTime(c.expr);
    match c.op
    case Equals => Window(x, x)
    case GreaterThan => w.(start := Max(w.start, (x + 1) % WORD))
    case GreaterThanOrEquals => w.(start := Max(w.start, x))
    case LessThan => w.(stop := Min(w.stop, Sub64(x, 1)))
    case LessThanOrEquals => w.(stop := Min(w.stop, x))
    case Unsupported => w
  }

  /** The constraints in turn, up to the first equality. */
  function Narrow(cs: seq<Constraint>, w: Window): Window {
    if cs == [] then w
    else if cs[0].op == Equals then NarrowOne(cs[0], w)
    else Narrow(cs[1..], NarrowOne(cs[0], w))
  }

  predicate Holds(c: Constraint, time: nat) {
    match c.op
    case Equals => time == c.expr
    case GreaterThan => time > c.expr
    case GreaterThanOrEquals => time >= c.expr
    case LessThan => time < c.expr
    case LessThanOrEquals => time <= c.expr
    case Unsupported => true
  }

  /** A negative lower bound becomes an enormous unsigned one. */
  predicate NegativeBound(c: Constraint) {
    (c.op == GreaterThan && c.expr < -1) || (c.op == GreaterThanOrEquals && c.expr < 0)
  }

  predicate HasEquals(cs: seq<Constraint>) {
    exists i :: 0 <= i < |cs| && cs[i].op == Equals
  }

  predicate HasNegativeBound(cs: seq<Constraint>) {
    exists i :: 0 <= i < |cs| && NegativeBound(cs[i])
  }

  const LIMIT := 0x8000_0000_0000_0000

  predicate Operands(cs: seq<Constraint>) {
    forall i :: 0 <= i < |cs| ==> -LIMIT <= cs[i].expr < LIMIT
  }

  lemma FirstOrRest(cs: seq<Constraint>)
    requires cs != []
    ensures HasEquals(cs) <==> cs[0].op == Equals || HasEquals(cs[1..])
    ensures HasNegativeBound(cs) <==> NegativeBound(cs[0]) || HasNegativeBound(cs[1..])
  {
    var rest := cs[1..];
    assert forall i :: 0 <= i < |rest| ==> rest[i] == cs[i + 1];
    if HasEquals(cs) && cs[0].op != Equals {
      var i :| 0 <= i < |cs| && cs[i].op == Equals;
      assert rest[i - 1].op == Equals;
    }
    if HasNegativeBound(cs) && !NegativeBound(cs[0]) {
      var i :| 0 <= i < |cs| && NegativeBound(cs[i]);
      assert NegativeBound(rest[i - 1]);
    }
  }

  lemma {:induction false} NarrowIs(cs: seq<Constraint>, w: Window, time: nat)
    requires Operands(cs) && time < LIMIT && w.stop == 0 && w.start < WORD
    requires forall i :: 0 <= i < |cs| ==> Holds(cs[i], time)
    ensures var n := Narrow(cs, w);
            InWindow(time, n.start, n.stop) <==> HasEquals(cs) || (!HasNegativeBound(cs) && w.start <= time)
  {
    if cs != [] {
      var rest := cs[1..];
      assert forall i :: 0 <= i < |rest| ==> rest[i] == cs[i + 1];
      FirstOrRest(cs);
      NarrowOneIs(cs[0], w, time);
      hide HasEquals, HasNegativeBound, NegativeBound, NarrowOne, Holds;
      if cs[0].op != Equals {
        NarrowIs(rest, NarrowOne(cs[0], w), time);
      }
    }
  }

  lemma NarrowOneIs(c: Constraint, w: Window, time: nat)
    requires -LIMIT <= c.expr < LIMIT && time < LIMIT && w.stop == 0 && w.start < WORD && Holds(c, time)
    ensures var n := NarrowOne(c, w);
            if c.op == Equals then n == Window(time, time)
            else n.stop == 0 && n.start < WORD && (n.start <= time <==> !NegativeBound(c) && w.start <= time)
  {
    var x := ToTime(c.expr);
    assert x == if c.expr < 0 then c.expr + WORD else c.expr;
  }

  /** A row that satisfies all constraints lies in the window exactly when some constraint is an
      equality or no lower bound is negative. */
  lemma WindowKeepsMatches(cs: seq<Constraint>, time: nat)
    requires Operands(cs) && time < LIMIT
    requires forall i :: 0 <= i < |cs| ==> Holds(cs[i], time)
    ensures var w := Narrow(cs, Window(0, 0));
            InWindow(time, w.start, w.stop) <==> HasEquals(cs) || !HasNegativeBound(cs)
  {
    NarrowIs(cs, Window(0, 0), time);
  }

  predicate LowerBound(c: Constraint) {
    c.op == GreaterThan || c.op == GreaterThanOrEquals
  }

  /** A lower bound that is not negative and holds. */
  predicate Admits(c: Constraint, time: nat) {
    LowerBound(c) ==> !NegativeBound(c) && Holds(c, time)
  }

  lemma NarrowOneExact(c: Constraint, w: Window, time: nat)
    requires -LIMIT <= c.expr < LIMIT && time < LIMIT && w.stop == 0 && w.start < WORD && c.op != Equals
    ensures var n := NarrowOne(c, w);
            n.stop == 0 && n.start < WORD && (n.start <= time <==> w.start <= time && Admits(c, time))
  {
    var x := ToTime(c.expr);
    assert x == if c.expr < 0 then c.expr + WORD else c.expr;
  }

  lemma {:induction false} NarrowExact(cs: seq<Constraint>, w: Window, time: nat)
    requires Operands(cs) && time < LIMIT && w.stop == 0 && w.start < WORD
    requires forall i :: 0 <= i < |cs| ==> cs[i].op != Equals
    ensures var n := Narrow(cs, w);
            InWindow(time, n.start, n.stop) <==> w.start <= time && forall i :: 0 <= i < |cs| ==> Admits(cs[i], time)
  {
    if cs != [] {
      hide Admits, NarrowOne;
      var rest := cs[1..];
      assert forall i :: 0 <= i < |rest| ==> rest[i] == cs[i + 1];
      NarrowOneExact(cs[0], w, time);
      NarrowExact(rest, NarrowOne(cs[0], w), time);
      if forall i :: 0 <= i < |rest| ==> Admits(rest[i], time) {
        forall i | 1 <= i < |cs|
          ensures Admits(cs[i], time)
        {
          assert cs[i] == rest[i - 1];
        }
      }
    }
  }

  predicate FirstEquals(cs: seq<Constraint>, i: nat) {
    i < |cs| && cs[i].op == Equals && forall j :: 0 <= j < i ==> cs[j].op != Equals
  }

  lemma {:induction false} FirstEqualityWins(cs: seq<Constraint>, w: Window, i: nat)
    requires FirstEquals(cs, i)
    ensures Narrow(cs, w) == Window(ToTime(cs[i].expr), ToTime(cs[i].expr))
  {
    if i > 0 {
      FirstEqualityWins(cs[1..], NarrowOne(cs[0], w), i - 1);
    }
  }

  /** Which times lie in the window, matching or not: after an equality its own operand, and every time if that is
      zero; without one the times that satisfy all lower bounds, and none if a lower bound is negative. Upper bounds
      have no effect. */
  lemma WindowIs(cs: seq<Constraint>, time: nat, i: nat)
    requires Operands(cs) && time < LIMIT
    ensures var w := Narrow(cs, Window(0, 0));
            && (FirstEquals(cs, i) ==> (InWindow(time, w.start, w.stop) <==> cs[i].expr == time || cs[i].expr == 0))
            && (!HasEquals(cs) ==>
                  (InWindow(time, w.start, w.stop) <==>
                   forall k :: 0 <= k < |cs| && LowerBound(cs[k]) ==> !NegativeBound(cs[k]) && Holds(cs[k], time)))
  {
    hide Narrow, Admits, HasEquals;
    if FirstEquals(cs, i) {
      EqualityWindow(cs, time, i);
    }
    if !HasEquals(cs) {
      NoEquality(cs);
      NarrowExact(cs, Window(0, 0), time);
      forall k | 0 <= k < |cs|
        ensures Admits(cs[k], time) <==> (LowerBound(cs[k]) ==> !NegativeBound(cs[k]) && Holds(cs[k], time))
      {
        AdmitsIs(cs[k], time);
      }
    }
  }

  lemma EqualityWindow(cs: seq<Constraint>, time: nat, i: nat)
    requires Operands(cs) && time < LIMIT && FirstEquals(cs, i)
    ensures var w := Narrow(cs, Window(0, 0)); InWindow(time, w.start, w.stop) <==> cs[i].expr == time || cs[i].expr == 0
  {
    FirstEqualityWins(cs, Window(0, 0), i);
    var x := ToTime(cs[i].expr);
    assert x == if cs[i].expr < 0 then cs[i].expr + WORD else cs[i].expr;
  }

  lemma NoEquality(cs: seq<Constraint>)
    ensures !HasEquals(cs) ==> forall k :: 0 <= k < |cs| ==> cs[k].op != Equals
  {
  }

  lemma AdmitsIs(c: Constraint, time: nat)
    ensures Admits(c, time) <==> (LowerBound(c) ==> !NegativeBound(c) && Holds(c, time))
  {
  }

  /** A concrete loss: "time > -5" hides a row of time 7. */
  lemma NegativeBoundLosesRow()
    ensures var cs := [Constraint(GreaterThan, -5)];
            var w := Narrow(cs, Window(0, 0));
            Holds(cs[0], 7) && !InWindow(7, w.start, w.stop)
  {
    var cs := [Constraint(GreaterThan, -5)];
    assert NegativeBound(cs[0]);
    WindowKeepsMatches(cs, 7);
  }
}
