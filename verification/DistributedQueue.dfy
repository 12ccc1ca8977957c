/** The distributed work queue: accepted requests, their results and the documents written back. */
module DistributedQueue {
  import opened Text

  /** What a query answered: its rows and the code of its status. */
  datatype Answer = Answer(rows: seq<map<string, string>>, code: int)

  datatype Result = Result(id: string, answer: Answer)

  /** A member of the "queries" or "discovery" object; an empty or absent text is refused. */
  datatype Entry = Entry(name: Option<string>, query: Option<string>)

  predicate WellFormed(e: Entry) {
    e.name.GetOr("") != "" && e.query.GetOr("") != ""
  }

  /** The document handed to the plugin: rows by id and status codes by id. */
  datatype Document = Document(queries: map<string, seq<map<string, string>>>, statuses: map<string, int>)

  /** The last answer recorded for each id. */
  function Latest(results: seq<Result>): map<string, Answer> {
    if results == [] then map[]
    else
      var last := results[|results| - 1];
      Latest(results[..|results| - 1])[last.id := last.answer]
  }

  ghost predicate Describes(doc: Document, results: seq<Result>) {
    var latest := Latest(results);
    && doc.queries.Keys == doc.statuses.Keys == latest.Keys
    && forall id :: id in latest ==> doc.queries[id] == latest[id].rows && doc.statuses[id] == latest[id].code
  }

  /** The ids that went out in some document. */
  ghost function IdsIn(docs: seq<Document>): set<string> {
    set d, id | d in docs && id in d.queries :: id
  }

  /** How far the requests p0 have been answered when p is still pending. */
  ghost predicate Progress(p0: map<string, string>, ids: set<string>, p: map<string, string>,
                           latest: map<string, Answer>, run: string -> Answer) {
    && p.Keys <= p0.Keys && (forall id :: id in p ==> p[id] == p0[id])
    && p.Keys + latest.Keys == p0.Keys + ids
    && forall id :: id in p0 && id !in p ==> id in latest && latest[id] == run(p0[id])
  }

  lemma ProgressStart(p0: map<string, string>, latest: map<string, Answer>, run: string -> Answer)
    ensures Progress(p0, latest.Keys, p0, latest, run)
  {
  }

  lemma ProgressStep(p0: map<string, string>, ids: set<string>, p: map<string, string>,
                     latest: map<string, Answer>, run: string -> Answer, id: string)
    requires Progress(p0, ids, p, latest, run) && id in p
    ensures Progress(p0, ids, p - {id}, latest[id := run(p[id])], run)
  {
  }

  lemma ProgressEnd(p0: map<string, string>, ids: set<string>, latest: map<string, Answer>, run: string -> Answer)
    requires Progress(p0, ids, map[], latest, run)
    ensures latest.Keys == p0.Keys + ids
    ensures forall id :: id in p0 ==> id in latest && latest[id] == run(p0[id])
  {
  }

  lemma LatestNext(results: seq<Result>, r: Result)
    ensures Latest(results + [r]) == Latest(results)[r.id := r.answer]
  {
    assert (results + [r])[..|results|] == results;
  }

  class Queue {
    var pending: map<string, string>
    var results: seq<Result>
    ghost var accepted: set<string>   // ids ever enqueued
    ghost var written: seq<Document>  // documents the plugin took

    /** Every accepted id is pending, has a result that is not flushed yet, or went out in a document;
        and nothing else is in any of the three places. */
    ghost predicate Conserved()
      reads this
    {
      accepted == pending.Keys + Latest(results).Keys + IdsIn(written)
    }

    constructor ()
      ensures Conserved() && pending == map[] && results == [] && accepted == {}
    {
      pending, results, accepted, written := map[], [], {}, [];
    }

    /** Every discovery query is well-formed and succeeds. */
    static predicate DiscoveryOk(discovery: seq<Entry>, run: string -> Answer) {
      forall i :: 0 <= i < |discovery| ==> WellFormed(discovery[i]) && run(discovery[i].query.value).code == 0
    }

    /** The names whose discovery query returned a row. */
    static function Selected(discovery: seq<Entry>, run: string -> Answer): set<string> {
      set i | 0 <= i < |discovery| && run(discovery[i].query.GetOr("")).rows != [] :: discovery[i].name.GetOr("")
    }

    /** The discovery part of `acceptWork`, given what each discovery query answers. */
    static method Discover(discovery: seq<Entry>, run: string -> Answer) returns (ok: bool, selected: set<string>)
      ensures ok <==> DiscoveryOk(discovery, run)
      ensures ok ==> selected == Selected(discovery, run)
      ensures ok ==> forall name :: name in selected <==>
                exists i :: 0 <= i < |discovery| && discovery[i].name == Some(name) && run(discovery[i].query.value).rows != []
    {
      selected := {};
      for i := 0 to |discovery|
        invariant DiscoveryOk(discovery[..i], run) && selected == Selected(discovery[..i], run)
      {
        assert discovery[..i + 1] == discovery[..i] + [discovery[i]];
        if !WellFormed(discovery[i]) {
          return false, selected;
        }
        var answer := run(discovery[i].query.value);
        if answer.code != 0 {
          return false, selected;
        }
        SelectedMore(discovery[..i], discovery[i], run);
        if |answer.rows| > 0 {
          selected := selected + {discovery[i].name.value};
        }
      }
      assert discovery[..|discovery|] == discovery;
      ok := true;
    }

    /** The entries up to the first malformed one, as far as discovery selected them. */
    static function Enqueued(queries: seq<Entry>, selected: set<string>): map<string, string> {
      if queries == [] || !WellFormed(queries[0]) then map[]
      else
        var rest := Enqueued(queries[1..], selected);
        var name := queries[0].name.value;
        if (selected == {} || name in selected) && name !in rest then rest[name := queries[0].query.value] else rest
    }

    /** The enqueueing part of `acceptWork`: when an entry is malformed the ones before it stay accepted. */
    method Enqueue(queries: seq<Entry>, selected: set<string>) returns (ok: bool)
      requires Conserved()
      modifies this`pending, this`accepted
      ensures Conserved()
      ensures ok <==> forall i :: 0 <= i < |queries| ==> WellFormed(queries[i])
      ensures pending == old(pending) + Enqueued(queries, selected)
      ensures accepted == old(accepted) + Enqueued(queries, selected).Keys
    {
      hide Conserved, Enqueued;
      EnqueuedNothing(pending, accepted, selected);
      assert queries[0..] == queries;
      for i := 0 to |queries|
        invariant Conserved()
        invariant forall k :: 0 <= k < i ==> WellFormed(queries[k])
        invariant pending + Enqueued(queries[i..], selected) == old(pending) + Enqueued(queries, selected)
        invariant accepted + Enqueued(queries[i..], selected).Keys == old(accepted) + Enqueued(queries, selected).Keys
      {
        EnqueuedStep(pending, queries, i, selected);
        if !WellFormed(queries[i]) {
          assert pending + map[] == pending;
          return false;
        }
        var name, query := queries[i].name.value, queries[i].query.value;
        if selected == {} || name in selected {
          Put(name, query);
        }
      }
      assert queries[|queries|..] == [];
      EnqueuedNothing(pending, accepted, selected);
      ok := true;
    }

    /** The write of one request. */
    method Put(name: string, query: string)
      requires Conserved()
      modifies this`pending, this`accepted
      ensures Conserved() && pending == old(pending)[name := query] && accepted == old(accepted) + {name}
    {
      hide Latest, IdsIn;
      pending := pending[name := query];
      accepted := accepted + {name};
    }

    /** `acceptWork`: unless all discovery queries are well-formed and succeed nothing is enqueued; else the
        entries before the first malformed one are, as far as discovery selected them. */
    method AcceptWork(discovery: seq<Entry>, queries: seq<Entry>, run: string -> Answer) returns (ok: bool)
      requires Conserved()
      modifies this`pending, this`accepted
      ensures Conserved()
      ensures ok <==> DiscoveryOk(discovery, run) && forall i :: 0 <= i < |queries| ==> WellFormed(queries[i])
      ensures var news := if DiscoveryOk(discovery, run) then Enqueued(queries, Selected(discovery, run)) else map[];
              pending == old(pending) + news && accepted == old(accepted) + news.Keys
    {
      hide Latest, IdsIn, Enqueued, DiscoveryOk, Selected;
      var found, selected := Discover(discovery, run);
      if !found {
        assert pending == pending + map[];
        return false;
      }
      ok := Enqueue(queries, selected);
    }

    method PopRequest() returns (id: string, query: string)
      requires pending != map[]
      modifies this`pending
      ensures id in old(pending) && query == old(pending)[id] && pending == old(pending) - {id}
    {
      assert pending.Keys != {};
      id :| id in pending.Keys;
      query := pending[id];
      pending := pending - {id};
    }

    /** One round of `runQueries`: take a request, run it, record its result. */
    method AnswerOne(run: string -> Answer) returns (ghost id: string)
      requires pending != map[]
      modifies this`pending, this`results
      ensures id in old(pending) && pending == old(pending) - {id} && |pending| < |old(pending)|
      ensures results == old(results) + [Result(id, run(old(pending)[id]))]
      ensures Latest(results) == Latest(old(results))[id := run(old(pending)[id])]
    {
      var next, query := PopRequest();
      id := next;
      LatestNext(results, Result(next, run(query)));
      results := results + [Result(next, run(query))];
      assert old(pending).Keys == pending.Keys + {id};
      assert |old(pending)| == |old(pending).Keys| && |pending| == |pending.Keys|;
    }

    /** The loop of `runQueries`: it ends with no request pending and an answer for each of them. */
    method Drain(run: string -> Answer)
      modifies this`pending, this`results
      ensures pending == map[] && Latest(results).Keys == old(pending.Keys + Latest(results).Keys)
      ensures old(results) <= results && (results == [] <==> old(pending) == map[] && old(results) == [])
      ensures forall id :: id in old(pending) ==> id in Latest(results) && Latest(results)[id] == run(old(pending)[id])
    {
      hide Latest, IdsIn, Progress;
      ProgressStart(pending, Latest(results), run);
      ghost var ids := Latest(results).Keys;
      while pending != map[]
        invariant Progress(old(pending), ids, pending, Latest(results), run)
        invariant old(results) <= results && (results == [] ==> pending == old(pending))
        invariant pending == old(pending) ==> results == old(results)
        invariant |pending| <= |old(pending)|
        decreases |pending|
      {
        ghost var p, latest := pending, Latest(results);
        ghost var id := AnswerOne(run);
        ProgressStep(old(pending), ids, p, latest, run, id);
      }
      ProgressEnd(old(pending), ids, Latest(results), run);
    }

    /** `runQueries` drains the pending requests, each answered by the SQL engine, and flushes. */
    method RunQueries(run: string -> Answer, pluginOk: bool) returns (ok: bool)
      requires Conserved()
      modifies this
      ensures Conserved() && accepted == old(accepted) && pending == map[]
      ensures ok <==> pluginOk || (old(pending) == map[] && old(results) == [])
      ensures old(pending) == map[] && old(results) == [] ==> written == old(written)
      ensures !(old(pending) == map[] && old(results) == []) && ok ==>
                && results == [] && |written| == |old(written)| + 1
                && (forall id :: id in old(pending) ==>
                      var doc := written[|written| - 1];
                      && id in doc.queries && id in doc.statuses
                      && Answer(doc.queries[id], doc.statuses[id]) == run(old(pending)[id]))
      ensures !ok ==> written == old(written) && old(results) <= results &&
                      forall id :: id in old(pending) ==> id in Latest(results) && Latest(results)[id] == run(old(pending)[id])
    {
      hide Latest, IdsIn;
      Drain(run);
      assert Conserved();
      hide Conserved;
      ok := FlushCompleted(pluginOk);
    }

    /** `serializeResults`: later results of an id replace earlier ones. */
    method SerializeResults() returns (doc: Document)
      ensures Describes(doc, results)
    {
      doc := Document(map[], map[]);
      for i := 0 to |results|
        invariant Describes(doc, results[..i])
      {
        assert results[..i + 1][..i] == results[..i];
        var r := results[i];
        doc := Document(doc.queries[r.id := r.answer.rows], doc.statuses[r.id := r.answer.code]);
      }
      assert results[..|results|] == results;
    }

    /** `flushCompleted`: the results are dropped only after the plugin took them. */
    method FlushCompleted(pluginOk: bool) returns (ok: bool)
      requires Conserved()
      modifies this
      ensures Conserved() && accepted == old(accepted) && pending == old(pending)
      ensures ok <==> pluginOk || old(results) == []
      ensures old(results) == [] || !ok ==> results == old(results) && written == old(written)
      ensures old(results) != [] && ok ==>
                && results == [] && |written| == |old(written)| + 1 && written[..|old(written)|] == old(written)
                && Describes(written[|written| - 1], old(results))
    {
      if |results| == 0 {
        return true;
      }
      var doc := SerializeResults();
      if pluginOk {
        ghost var before := IdsIn(written);
        results := [];
        written := written + [doc];
        assert IdsIn(written) == before + doc.queries.Keys;
      }
      return pluginOk;
    }
  }

  lemma EnqueuedNothing(pending: map<string, string>, accepted: set<string>, selected: set<string>)
    ensures pending + Queue.Enqueued([], selected) == pending && accepted + Queue.Enqueued([], selected).Keys == accepted
  {
  }

  lemma EnqueuedStep(pending: map<string, string>, queries: seq<Entry>, i: nat, selected: set<string>)
    requires i < |queries|
    ensures !WellFormed(queries[i]) ==> Queue.Enqueued(queries[i..], selected) == map[]
    ensures WellFormed(queries[i]) ==>
              var name, rest := queries[i].name.value, Queue.Enqueued(queries[i + 1..], selected);
              var taken := selected == {} || name in selected;
              && pending + Queue.Enqueued(queries[i..], selected) ==
                 (if taken then pending[name := queries[i].query.value] else pending) + rest
              && Queue.Enqueued(queries[i..], selected).Keys == (if taken then {name} else {}) + rest.Keys
  {
    assert queries[i..][1..] == queries[i + 1..];
  }

  lemma SelectedMore(discovery: seq<Entry>, e: Entry, run: string -> Answer)
    ensures Queue.Selected(discovery + [e], run) ==
            Queue.Selected(discovery, run) + (if run(e.query.GetOr("")).rows != [] then {e.name.GetOr("")} else {})
  {
    var more := discovery + [e];
    forall i | 0 <= i < |discovery|
      ensures more[i] == discovery[i]
    {
    }
    assert more[|discovery|] == e;
    forall name | name in Queue.Selected(discovery, run)
      ensures name in Queue.Selected(more, run)
    {
      var i :| 0 <= i < |discovery| && run(discovery[i].query.GetOr("")).rows != [] && name == discovery[i].name.GetOr("");
      assert name == more[i].name.GetOr("");
    }
  }

  /** Entry i is read: it and all entries before it are well-formed. */
  predicate Read(queries: seq<Entry>, i: nat) {
    i < |queries| && forall k :: 0 <= k <= i ==> WellFormed(queries[k])
  }

  /** Entry i is the last one read under its name. */
  predicate LastRead(queries: seq<Entry>, i: nat, id: string) {
    && Read(queries, i) && queries[i].name == Some(id)
    && forall k :: i < k < |queries| && Read(queries, k) ==> queries[k].name != Some(id)
  }

  lemma ReadNext(queries: seq<Entry>, k: nat)
    requires queries != [] && WellFormed(queries[0])
    ensures Read(queries[1..], k) <==> Read(queries, k + 1)
  {
    assert forall j :: 0 <= j < |queries| - 1 ==> queries[1..][j] == queries[j + 1];
    if Read(queries[1..], k) {
      forall j | 0 <= j <= k + 1
        ensures WellFormed(queries[j])
      {
        if j > 0 {
          assert queries[1..][j - 1] == queries[j];
        }
      }
    }
  }

  lemma {:induction false} ReadIsEnqueued(queries: seq<Entry>, selected: set<string>, i: nat)
    requires Read(queries, i) && (selected == {} || queries[i].name.value in selected)
    ensures queries[i].name.value in Queue.Enqueued(queries, selected)
  {
    if i > 0 {
      ReadNext(queries, i - 1);
      ReadIsEnqueued(queries[1..], selected, i - 1);
    }
  }

  /** The entries enqueued are those that are read and selected, all that are read if discovery
      selected none, each with the text of the last entry of its name. */
  lemma {:induction false} EnqueuedAre(queries: seq<Entry>, selected: set<string>, id: string)
    ensures id in Queue.Enqueued(queries, selected) <==>
            (selected == {} || id in selected) && exists i: nat :: LastRead(queries, i, id)
    ensures id in Queue.Enqueued(queries, selected) ==>
            exists i: nat :: LastRead(queries, i, id) && queries[i].query == Some(Queue.Enqueued(queries, selected)[id])
  {
    if i: nat :| LastRead(queries, i, id) {
      if selected == {} || id in selected {
        ReadIsEnqueued(queries, selected, i);
      }
    }
    if id in Queue.Enqueued(queries, selected) {
      var rest := queries[1..];
      EnqueuedAre(rest, selected, id);
      if id in Queue.Enqueued(rest, selected) {
        var i: nat :| LastRead(rest, i, id) && rest[i].query == Some(Queue.Enqueued(rest, selected)[id]);
        LastShifts(queries, i, id);
        assert LastRead(queries, i + 1, id) && queries[i + 1] == rest[i];
      } else {
        forall k | 0 < k < |queries| && Read(queries, k)
          ensures queries[k].name != Some(id)
        {
          ReadNext(queries, k - 1);
          assert rest[k - 1] == queries[k];
          if queries[k].name == Some(id) {
            ReadIsEnqueued(rest, selected, k - 1);
          }
        }
        assert LastRead(queries, 0, id);
      }
    }
  }

  lemma LastShifts(queries: seq<Entry>, i: nat, id: string)
    requires queries != [] && WellFormed(queries[0]) && LastRead(queries[1..], i, id)
    ensures LastRead(queries, i + 1, id)
  {
    ReadNext(queries, i);
    forall k | i + 1 < k < |queries| && Read(queries, k)
      ensures queries[k].name != Some(id)
    {
      ReadNext(queries, k - 1);
      assert queries[1..][k - 1] == queries[k];
    }
  }

  /** A discovery query that returns no row is meant to hold its query back. If no discovery query returns a
      row, every query is accepted. */
  lemma EmptyDiscoveryAcceptsAll(run: string -> Answer)
    requires run("d") == Answer([], 0)
    ensures var discovery, queries := [Entry(Some("q"), Some("d"))], [Entry(Some("q"), Some("s"))];
            && Queue.DiscoveryOk(discovery, run) && Queue.Selected(discovery, run) == {}
            && "q" in Queue.Enqueued(queries, Queue.Selected(discovery, run))
  {
    var discovery, queries := [Entry(Some("q"), Some("d"))], [Entry(Some("q"), Some("s"))];
    assert Queue.Selected(discovery, run) == {};
    ReadIsEnqueued(queries, {}, 0);
  }

  /** Discovery selects: a query is held back exactly when some other one was selected. */
  lemma HeldBackIff(queries: seq<Entry>, selected: set<string>, i: nat)
    requires Read(queries, i)
    ensures queries[i].name.value !in Queue.Enqueued(queries, selected) <==>
            selected != {} && queries[i].name.value !in selected
  {
    var id := queries[i].name.value;
    EnqueuedAre(queries, selected, id);
    if selected == {} || id in selected {
      ReadIsEnqueued(queries, selected, i);
    }
  }

  /** An entry counts when it has a name and a query and neither is empty. */
  lemma WellFormedIff(e: Entry)
    ensures WellFormed(e) <==> exists name, query :: name != "" && query != "" && e == Entry(Some(name), Some(query))
  {
    if WellFormed(e) {
      assert e == Entry(Some(e.name.value), Some(e.query.value));
    }
  }
}
