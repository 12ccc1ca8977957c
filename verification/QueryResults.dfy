/** The differential result store of a scheduled query. */
module QueryResults {
  import opened Text

  type Row = map<string, string>

  // ----- serialization -----

  /** A row written as a JSON object and read back: columns with an empty name are dropped. */
  function Reload(r: Row): Row {
    r - {""}
  }

  /** Storing keeps every column that has a name, with its value. */
  lemma NamedColumnsStay(r: Row, column: string)
    requires column != ""
    ensures column in Reload(r) <==> column in r
    ensures column in r ==> Reload(r)[column] == r[column]
  {
  }

  /** Stored results as they are read back for comparison: a multiset of rows. */
  function ReloadAll(rows: seq<Row>): multiset<Row> {
    if rows == [] then multiset{} else ReloadAll(rows[..|rows| - 1]) + multiset{Reload(rows[|rows| - 1])}
  }

  predicate Clean(rows: seq<Row>) {
    forall i :: 0 <= i < |rows| ==> "" !in rows[i]
  }

  lemma {:induction false} CleanReloads(rows: seq<Row>)
    requires Clean(rows)
    ensures ReloadAll(rows) == multiset(rows)
  {
    if rows != [] {
      CleanReloads(rows[..|rows| - 1]);
      var last := rows[|rows| - 1];
      assert Reload(last) == last;
      assert rows == rows[..|rows| - 1] + [last];
    }
  }

  lemma {:induction false} ReloadedAreClean(rows: seq<Row>, r: Row)
    requires r in ReloadAll(rows)
    ensures "" !in r
  {
    if rows != [] && r != Reload(rows[|rows| - 1]) {
      ReloadedAreClean(rows[..|rows| - 1], r);
    }
  }

  /** Results survive storage exactly when no column name is empty. */
  lemma StorageRoundTrip(rows: seq<Row>)
    ensures ReloadAll(rows) == multiset(rows) <==> Clean(rows)
  {
    if Clean(rows) {
      CleanReloads(rows);
    } else {
      var i :| 0 <= i < |rows| && "" in rows[i];
      assert rows[i] in multiset(rows);
      if rows[i] in ReloadAll(rows) {
        ReloadedAreClean(rows, rows[i]);
      }
    }
  }

  // ----- diff -----

  /** The rows of `current` without a partner in the earlier results, in order. */
  function AddedRows(earlier: multiset<Row>, current: seq<Row>): seq<Row> {
    if current == [] then []
    else if current[0] in earlier then AddedRows(earlier - multiset{current[0]}, current[1..])
    else [current[0]] + AddedRows(earlier, current[1..])
  }

  /** Added rows are the multiset difference one way; what is left over is the difference the other way. */
  lemma {:induction false} AddedIsDifference(earlier: multiset<Row>, current: seq<Row>)
    ensures multiset(AddedRows(earlier, current)) == multiset(current) - earlier
  {
    if current != [] {
      assert current == [current[0]] + current[1..];
      if current[0] in earlier {
        AddedIsDifference(earlier - multiset{current[0]}, current[1..]);
      } else {
        AddedIsDifference(earlier, current[1..]);
      }
    }
  }

  lemma TakeNext(earlier: multiset<Row>, current: seq<Row>, i: nat)
    requires i < |current|
    ensures earlier - multiset(current[..i + 1]) == earlier - multiset(current[..i]) - multiset{current[i]}
  {
    assert current[..i + 1] == current[..i] + [current[i]];
  }

  lemma AddedStep(added: seq<Row>, left: multiset<Row>, current: seq<Row>, i: nat)
    requires i < |current|
    ensures added + AddedRows(left, current[i..]) ==
            if current[i] in left then added + AddedRows(left - multiset{current[i]}, current[i + 1..])
            else added + [current[i]] + AddedRows(left, current[i + 1..])
  {
    assert current[i..][1..] == current[i + 1..];
  }

  /** What is left of the earlier results, as a list. */
  method Drain(left: multiset<Row>) returns (removed: seq<Row>)
    ensures multiset(removed) == left
  {
    var rest := left;
    removed := [];
    while rest != multiset{}
      invariant multiset(removed) + rest == left
      decreases |rest|
    {
      var r :| r in rest;
      rest := rest - multiset{r};
      removed := removed + [r];
    }
  }

  /** `diff`: cross off the rows that occur in both, report the rest on either side. */
  method Diff(earlier: multiset<Row>, current: seq<Row>) returns (added: seq<Row>, removed: seq<Row>)
    ensures added == AddedRows(earlier, current)
    ensures multiset(removed) == earlier - multiset(current)
  {
    var left := earlier;
    added := [];
    for i := 0 to |current|
      invariant added + AddedRows(left, current[i..]) == AddedRows(earlier, current)
      invariant left == earlier - multiset(current[..i])
    {
      TakeNext(earlier, current, i);
      AddedStep(added, left, current, i);
      hide AddedRows;
      if current[i] in left {
        left := left - multiset{current[i]};
      } else {
        added := added + [current[i]];
      }
    }
    assert current[..|current|] == current;
    removed := Drain(left);
  }

  // ----- the store of one query -----

  /** The database keys of a query: results, epoch, counter and query text. */
  datatype Db = Db(rows: Option<seq<Row>>, epoch: Option<nat>, counter: Option<nat>, text: Option<string>)

  datatype Write = SaveText(text: string) | SaveCounter(counter: nat) | SaveRows(rows: seq<Row>) | SaveEpoch(epoch: nat)

  function Apply(db: Db, w: Write): Db {
    match w
    case SaveText(text) => db.(text := Some(text))
    case SaveCounter(counter) => db.(counter := Some(counter))
    case SaveRows(rows) => db.(rows := Some(rows))
    case SaveEpoch(epoch) => db.(epoch := Some(epoch))
  }

  function ApplyAll(db: Db, ws: seq<Write>): Db {
    if ws == [] then db else Apply(ApplyAll(db, ws[..|ws| - 1]), ws[|ws| - 1])
  }

  /** One execution of the scheduled query, with or without a differential. */
  datatype Input = Input(rows: seq<Row>, epoch: nat, text: string, differential: bool)

  function PreviousEpoch(db: Db): nat {
    db.epoch.GetOr(0)
  }

  /** The first results of a query, or the first under a new epoch. */
  predicate Anew(db: Db, input: Input) {
    db.rows.None? || PreviousEpoch(db) != input.epoch
  }

  predicate Fresh(db: Db, input: Input) {
    !input.differential || Anew(db, input)
  }

  predicate Altered(db: Db, input: Input) {
    !Anew(db, input) && db.text.GetOr("") != input.text
  }

  function Previous(db: Db): multiset<Row> {
    match db.rows
    case None => multiset{}
    case Some(rows) => ReloadAll(rows)
  }

  function Added(db: Db, input: Input): seq<Row> {
    if Fresh(db, input) then input.rows else AddedRows(Previous(db), input.rows)
  }

  function Removed(db: Db, input: Input): multiset<Row> {
    if Fresh(db, input) then multiset{} else Previous(db) - multiset(input.rows)
  }

  function Counter(db: Db, input: Input): nat {
    if Fresh(db, input) || Altered(db, input) || db.counter.None? then 0 else db.counter.value + 1
  }

  /** The database writes of `addNewResults`, in order. */
  function Writes(db: Db, input: Input): seq<Write> {
    (if db.rows.None? || Altered(db, input) then [SaveText(input.text)] else []) +
    [SaveCounter(Counter(db, input))] +
    (if Updates(db, input) then [SaveRows(input.rows), SaveEpoch(input.epoch)] else [])
  }

  function Run(db: Db, input: Input): Db {
    ApplyAll(db, Writes(db, input))
  }

  class Query {
    const query: string
    var rows: Option<seq<Row>>
    var epoch: Option<nat>
    var counter: Option<nat>
    var text: Option<string>

    ghost function Stored(): Db
      reads this
    {
      Db(rows, epoch, counter, text)
    }

    constructor (query: string)
      ensures this.query == query && Stored() == Db(None, None, None, None)
    {
      this.query := query;
      rows, epoch, counter, text := None, None, None, None;
    }

    /** `addNewResults`, with or without a differential. */
    method AddNewResults(current: seq<Row>, currentEpoch: nat, calculateDiff: bool)
      returns (count: nat, added: seq<Row>, removed: seq<Row>)
      modifies this
      ensures var input := Input(current, currentEpoch, query, calculateDiff);
              && Stored() == Run(old(Stored()), input)
              && count == Counter(old(Stored()), input)
              && added == Added(old(Stored()), input)
              && multiset(removed) == Removed(old(Stored()), input)
    {
      hide Run, ReloadAll, AddedRows;
      ghost var db, input := Stored(), Input(current, currentEpoch, query, calculateDiff);
      RunIs(db, input);
      var freshResults, newQuery, update := !calculateDiff, false, true;
      if rows.None? {
        freshResults := true;
        text := Some(query);
      } else if epoch.GetOr(0) != currentEpoch {
        freshResults := true;
      } else if text.GetOr("") != query {
        newQuery := true;
        text := Some(query);
      }
      added, removed := current, [];
      if !freshResults && calculateDiff {
        added, removed := Diff(ReloadAll(rows.value), current);
        update := added != [] || removed != [];
      }
      count := if freshResults || newQuery || counter.None? then 0 else counter.value + 1;
      counter := Some(count);
      if update {
        rows := Some(current);
        epoch := Some(currentEpoch);
      }
    }
  }

  lemma ApplyMore(db: Db, ws: seq<Write>, w: Write)
    ensures ApplyAll(db, ws + [w]) == Apply(ApplyAll(db, ws), w)
  {
    assert (ws + [w])[..|ws|] == ws;
  }

  predicate Updates(db: Db, input: Input) {
    Fresh(db, input) || Added(db, input) != [] || Removed(db, input) != multiset{}
  }

  /** What a completed run leaves behind, key by key. */
  lemma RunIs(db: Db, input: Input)
    ensures var update := Updates(db, input);
            Run(db, input) == Db(if update then Some(input.rows) else db.rows,
                                 if update then Some(input.epoch) else db.epoch,
                                 Some(Counter(db, input)),
                                 if db.rows.None? || Altered(db, input) then Some(input.text) else db.text)
  {
    hide ApplyAll, Counter, Updates, Altered;
    var head: seq<Write> := if db.rows.None? || Altered(db, input) then [SaveText(input.text)] else [];
    var mid := db.(text := if db.rows.None? || Altered(db, input) then Some(input.text) else db.text);
    HeadApplied(db, input.text);
    assert ApplyAll(db, head) == mid;
    TailApplied(db, head, Counter(db, input), input);
    assert Writes(db, input) == head + [SaveCounter(Counter(db, input))] +
                                (if Updates(db, input) then [SaveRows(input.rows), SaveEpoch(input.epoch)] else []);
  }

  lemma HeadApplied(db: Db, text: string)
    ensures ApplyAll(db, []) == db && ApplyAll(db, [SaveText(text)]) == db.(text := Some(text))
  {
    ApplyMore(db, [], SaveText(text));
    assert [] + [SaveText(text)] == [SaveText(text)];
  }

  lemma TailApplied(db: Db, head: seq<Write>, count: nat, input: Input)
    ensures var mid, c := ApplyAll(db, head), SaveCounter(count);
            && ApplyAll(db, head + [c] + []) == mid.(counter := Some(count))
            && ApplyAll(db, head + [c] + [SaveRows(input.rows), SaveEpoch(input.epoch)]) ==
               mid.(counter := Some(count), rows := Some(input.rows), epoch := Some(input.epoch))
  {
    hide ApplyAll;
    var c, rows, epoch := SaveCounter(count), SaveRows(input.rows), SaveEpoch(input.epoch);
    ApplyMore(db, head, c);
    ApplyMore(db, head + [c], rows);
    ApplyMore(db, head + [c] + [rows], epoch);
    assert head + [c] + [] == head + [c];
    assert head + [c] + [rows, epoch] == head + [c] + [rows] + [epoch];
  }

  // ----- replaying the differences -----

  /** What a reader of the log holds after one more result. */
  function Fold(held: multiset<Row>, db: Db, input: Input): multiset<Row> {
    held - Removed(db, input) + multiset(Added(db, input))
  }

  function RunAll(db: Db, inputs: seq<Input>): Db {
    if inputs == [] then db else Run(RunAll(db, inputs[..|inputs| - 1]), inputs[|inputs| - 1])
  }

  function FoldAll(db: Db, inputs: seq<Input>): multiset<Row> {
    if inputs == [] then multiset{}
    else
      var before := inputs[..|inputs| - 1];
      Fold(FoldAll(db, before), RunAll(db, before), inputs[|inputs| - 1])
  }

  /** From any database content whatever, a completed run leaves the stored rows equal to the current
      rows under the current epoch, even when the difference is empty and nothing is written. */
  lemma RunStoresCurrent(db: Db, input: Input)
    requires Clean(input.rows)
    ensures var after := Run(db, input);
            after.rows.Some? && Previous(after) == multiset(input.rows) && PreviousEpoch(after) == input.epoch
  {
    RunIs(db, input);
    CleanReloads(input.rows);
    if !Fresh(db, input) {
      AddedIsDifference(Previous(db), input.rows);
    }
  }

  /** A reader that holds the stored rows holds the current rows after a differential run. */
  lemma FoldTracks(db: Db, input: Input)
    requires !Fresh(db, input)
    ensures Fold(Previous(db), db, input) == multiset(input.rows)
  {
    AddedIsDifference(Previous(db), input.rows);
  }

  /** Differences replay to the truth: within one epoch, from a fresh run on, folding every added and
      removed row over nothing gives exactly the latest results, which are also the stored rows, as
      long as the runs after the first one ask for a differential. */
  lemma {:induction false} ReplayIsTruth(db: Db, inputs: seq<Input>, epoch: nat)
    requires inputs != [] && Fresh(db, inputs[0])
    requires forall i :: 0 <= i < |inputs| ==> inputs[i].epoch == epoch && Clean(inputs[i].rows)
    requires forall i :: 1 <= i < |inputs| ==> inputs[i].differential
    ensures FoldAll(db, inputs) == multiset(inputs[|inputs| - 1].rows) == Previous(RunAll(db, inputs))
    ensures RunAll(db, inputs).rows.Some? && PreviousEpoch(RunAll(db, inputs)) == epoch
  {
    var before, last := inputs[..|inputs| - 1], inputs[|inputs| - 1];
    RunStoresCurrent(RunAll(db, before), last);
    if before != [] {
      ReplayIsTruth(db, before, epoch);
      FoldTracks(RunAll(db, before), last);
    }
  }

  /** A first run, a run under another epoch and a run without a differential report all current rows as added and
      none as removed, whatever is stored and whatever a reader holds. */
  lemma FreshRunReports(held: multiset<Row>, db: Db, input: Input)
    requires db.rows.None? || db.epoch.GetOr(0) != input.epoch || !input.differential
    ensures Added(db, input) == input.rows && Removed(db, input) == multiset{}
    ensures Fold(held, db, input) == held + multiset(input.rows)
  {
  }

  /** Every other run reports the two differences between stored and current rows. */
  lemma DifferentialRunReports(db: Db, input: Input)
    requires db.rows.Some? && db.epoch.GetOr(0) == input.epoch && input.differential
    ensures multiset(Added(db, input)) == multiset(input.rows) - ReloadAll(db.rows.value)
    ensures Removed(db, input) == ReloadAll(db.rows.value) - multiset(input.rows)
  {
    AddedIsDifference(ReloadAll(db.rows.value), input.rows);
  }

  /** What is written: rows and epoch unless a differential run found nothing new, the query text on a first
      run and for another text under the same epoch, the counter always. */
  lemma RunWrites(db: Db, input: Input)
    ensures var after := Run(db, input);
            var same := db.rows.Some? && db.epoch.GetOr(0) == input.epoch;
            var nothingNew := same && input.differential && ReloadAll(db.rows.value) == multiset(input.rows);
            && after.rows == (if nothingNew then db.rows else Some(input.rows))
            && after.epoch == (if nothingNew then db.epoch else Some(input.epoch))
            && after.text == (if db.rows.None? || (same && db.text.GetOr("") != input.text) then Some(input.text) else db.text)
            && after.counter == Some(if same && input.differential && db.text.GetOr("") == input.text && db.counter.Some?
                                     then db.counter.value + 1 else 0)
  {
    hide Run, ReloadAll, AddedRows;
    RunIs(db, input);
    if db.rows.Some? && db.epoch.GetOr(0) == input.epoch && input.differential {
      DifferentialRunReports(db, input);
      NoDifference(ReloadAll(db.rows.value), multiset(input.rows));
    }
  }

  lemma NoDifference(a: multiset<Row>, b: multiset<Row>)
    ensures a - b == multiset{} && b - a == multiset{} <==> a == b
  {
    if a - b == multiset{} && b - a == multiset{} {
      forall r
        ensures a[r] == b[r]
      {
        assert (a - b)[r] == 0 && (b - a)[r] == 0;
      }
    }
  }

  // ----- crashes -----

  /** A run that completes, or one that dies after its first `done` database writes. */
  datatype Attempt = Complete(input: Input) | Crash(input: Input, done: nat)

  function Try(db: Db, a: Attempt): Db {
    match a
    case Complete(input) => Run(db, input)
    case Crash(input, done) =>
      var ws := Writes(db, input);
      ApplyAll(db, if done < |ws| then ws[..done] else ws)
  }

  function TryAll(db: Db, attempts: seq<Attempt>): Db {
    if attempts == [] then db else Try(TryAll(db, attempts[..|attempts| - 1]), attempts[|attempts| - 1])
  }

  /** Whatever runs and crashes came before, the next completed run restores agreement. */
  lemma CrashRecovery(db: Db, attempts: seq<Attempt>, input: Input)
    requires Clean(input.rows)
    ensures var after := Run(TryAll(db, attempts), input);
            after.rows.Some? && Previous(after) == multiset(input.rows) && PreviousEpoch(after) == input.epoch
  {
    RunStoresCurrent(TryAll(db, attempts), input);
  }

  /** A crash never leaves results of one run under the epoch of a later one: rows are written first. */
  lemma CrashKeepsEpochBehind(db: Db, input: Input, done: nat)
    requires done < |Writes(db, input)|
    ensures Try(db, Crash(input, done)).epoch == db.epoch
    ensures Try(db, Crash(input, done)).rows == db.rows || Try(db, Crash(input, done)).rows == Some(input.rows)
  {
    PrefixKeepsEpoch(db, Writes(db, input)[..done], input);
  }

  lemma {:induction false} PrefixKeepsEpoch(db: Db, ws: seq<Write>, input: Input)
    requires forall i :: 0 <= i < |ws| ==> !ws[i].SaveEpoch? && (ws[i].SaveRows? ==> ws[i].rows == input.rows)
    ensures ApplyAll(db, ws).epoch == db.epoch
    ensures ApplyAll(db, ws).rows == db.rows || ApplyAll(db, ws).rows == Some(input.rows)
  {
    if ws != [] {
      PrefixKeepsEpoch(db, ws[..|ws| - 1], input);
    }
  }

  /** A reader of the log who holds any rows holds the current ones after a differential run exactly when, row by
      row, it held what was stored, or at most what was stored of a row that is gone now. */
  lemma ReaderCatchesUpIff(held: multiset<Row>, db: Db, input: Input)
    requires !Fresh(db, input)
    ensures Fold(held, db, input) == multiset(input.rows) <==>
            forall r :: held[r] == Previous(db)[r] || (multiset(input.rows)[r] == 0 && held[r] <= Previous(db)[r])
  {
    hide AddedRows, ReloadAll;
    AddedIsDifference(Previous(db), input.rows);
    var stored, current, after := Previous(db), multiset(input.rows), Fold(held, db, input);
    assert after == held - (stored - current) + (current - stored);
    hide Fold, Previous, Added, Removed;
    forall r
      ensures after[r] == current[r] <==> held[r] == stored[r] || (current[r] == 0 && held[r] <= stored[r])
    {
      assert (stored - current)[r] == if stored[r] <= current[r] then 0 else stored[r] - current[r];
      assert (current - stored)[r] == if current[r] <= stored[r] then 0 else current[r] - stored[r];
    }
    if forall r :: held[r] == stored[r] || (current[r] == 0 && held[r] <= stored[r]) {
      assert forall r :: after[r] == current[r];
    }
  }

  const ROW_A: Row := map["c" := "a"]
  const ROW_B: Row := map["c" := "b"]

  /** The stored rows were [a] when a run over [b] died with its rows written and nothing reported. The next run over
      [b] reports no difference, and a reader of the log is left with [a]. */
  lemma CrashLosesDifference()
    ensures var db := Db(Some([ROW_A]), Some(7), Some(0), Some("s"));
            var input := Input([ROW_B], 7, "s", true);
            var after := Try(db, Crash(input, 2));
            && db == Run(Db(None, None, None, None), Input([ROW_A], 7, "s", true))
            && Previous(db) == multiset{ROW_A} && 2 < |Writes(db, input)|
            && Added(after, input) == [] && Removed(after, input) == multiset{}
            && Fold(Previous(db), after, input) != multiset(input.rows)
  {
    var db, input := Db(Some([ROW_A]), Some(7), Some(0), Some("s")), Input([ROW_B], 7, "s", true);
    assert ROW_A["c"] != ROW_B["c"];
    RunIs(Db(None, None, None, None), Input([ROW_A], 7, "s", true));
    SingleStored(ROW_A);
    SingleStored(ROW_B);
    AddedIsDifference(multiset{ROW_A}, [ROW_B]);
    assert ROW_B in multiset(AddedRows(multiset{ROW_A}, [ROW_B]));
    var ws := Writes(db, input);
    assert ws[..2] == [SaveCounter(1), SaveRows([ROW_B])];
    TwoApplied(db, SaveCounter(1), SaveRows([ROW_B]));
    AddedIsDifference(multiset{ROW_B}, [ROW_B]);
    assert multiset([ROW_B]) == multiset{ROW_B};
  }

  lemma SingleStored(r: Row)
    requires "" !in r
    ensures ReloadAll([r]) == multiset{r}
  {
    CleanReloads([r]);
  }

  lemma TwoApplied(db: Db, a: Write, b: Write)
    ensures ApplyAll(db, [a, b]) == Apply(Apply(db, a), b)
  {
    assert [] + [a] == [a] && [a] + [b] == [a, b];
    ApplyMore(db, [], a);
    ApplyMore(db, [a], b);
  }

  // ----- the counter -----

  /** The number of runs since the last fresh or altered-query run. */
  function RunsSinceReset(db: Db, inputs: seq<Input>): nat
    requires inputs != []
  {
    var before, last := inputs[..|inputs| - 1], inputs[|inputs| - 1];
    var at := RunAll(db, before);
    if before == [] || Fresh(at, last) || Altered(at, last) then 0 else RunsSinceReset(db, before) + 1
  }

  lemma {:induction false} CounterCountsRuns(db: Db, inputs: seq<Input>)
    requires inputs != [] && Fresh(db, inputs[0])
    ensures var before, last := inputs[..|inputs| - 1], inputs[|inputs| - 1];
            Counter(RunAll(db, before), last) == RunsSinceReset(db, inputs)
    ensures RunAll(db, inputs).counter == Some(RunsSinceReset(db, inputs))
  {
    var before, last := inputs[..|inputs| - 1], inputs[|inputs| - 1];
    RunIs(RunAll(db, before), last);
    if before != [] {
      CounterCountsRuns(db, before);
    }
  }

  /** The documentation takes counter zero to mean that all records are in the added set. They are
      exactly when the run was fresh or shares no row with the stored results. */
  lemma AddedIsEverything(db: Db, input: Input)
    ensures Added(db, input) == input.rows <==>
            Fresh(db, input) || Previous(db) * multiset(input.rows) == multiset{}
  {
    if !Fresh(db, input) {
      var earlier, rows := Previous(db), input.rows;
      AddedIsDifference(earlier, rows);
      if earlier * multiset(rows) == multiset{} {
        NothingShared(earlier, rows);
      } else {
        var r :| r in earlier * multiset(rows);
        assert multiset(Added(db, input))[r] != multiset(rows)[r];
      }
    }
  }

  lemma {:induction false} NothingShared(earlier: multiset<Row>, rows: seq<Row>)
    requires earlier * multiset(rows) == multiset{}
    ensures AddedRows(earlier, rows) == rows
  {
    if rows != [] {
      assert rows == [rows[0]] + rows[1..];
      assert rows[0] !in earlier by {
        assert rows[0] in multiset(rows);
        assert (earlier * multiset(rows))[rows[0]] == 0;
      }
      NothingShared(earlier, rows[1..]);
    }
  }

  /** An altered query restarts its counter although it reports only a difference. */
  lemma ZeroCounterWithPartialResults()
    ensures var r: Row := map["c" := "v"];
            var db := Run(Db(None, None, None, None), Input([r], 7, "select 1", true));
            var input := Input([r], 7, "select 2", true);
            Counter(db, input) == 0 && Added(db, input) == [] && input.rows != []
  {
    var r: Row := map["c" := "v"];
    var first := Input([r], 7, "select 1", true);
    RunIs(Db(None, None, None, None), first);
    RunStoresCurrent(Db(None, None, None, None), first);
    var db := Run(Db(None, None, None, None), first);
    assert [r] == [r] + [];
    assert AddedRows(multiset([r]), [r]) == AddedRows(multiset([r]) - multiset{r}, [r][1..]);
  }

  /** Two runs in a row of the same query under the same epoch count up, unless the first of them
      followed both a new epoch and a new query text: the text is not saved then, so the second run
      counts as altered. */
  lemma SecondRunCountsUp(db: Db, first: Input, second: Input)
    requires Clean(first.rows) && first.epoch == second.epoch && first.text == second.text && second.differential
    ensures Counter(Run(db, first), second) == Counter(db, first) + 1 <==>
            !(db.rows.Some? && Anew(db, first) && db.text.GetOr("") != first.text)
  {
    RunIs(db, first);
    RunStoresCurrent(db, first);
  }
}
