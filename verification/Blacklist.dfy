/** The crash blacklist of the schedule: its text form and its protocol across process lifetimes. */
module Blacklist {
  import opened Text

  const ONE_DAY := 86400

  type Names = map<string, nat>  // query name to the time its entry expires

  // ----- the persisted text -----

  /** A name that survives the text form: trimmed, non-empty and without a colon. */
  predicate GoodName(name: string) {
    CleanPiece(name, ':')
  }

  predicate GoodNames(m: Names) {
    forall q :: q in m ==> GoodName(q) && m[q] < LLONG_BOUND
  }

  ghost predicate Enumerates(names: seq<string>, m: Names) {
    && (forall q :: q in names <==> q in m)
    && forall i, j :: 0 <= i < j < |names| ==> names[i] != names[j]
  }

  /** Names and expiry times in turn, as `saveScheduleBlacklist` writes them. */
  function Pieces(m: Names, names: seq<string>): seq<string>
    requires forall i :: 0 <= i < |names| ==> names[i] in m
  {
    if names == [] then []
    else
      var last := names[|names| - 1];
      Pieces(m, names[..|names| - 1]) + [last, ToString(m[last])]
  }

  /** The text is a rendering of the map, whatever order its entries were visited in. */
  ghost predicate Renders(text: string, m: Names) {
    exists names :: Enumerates(names, m) && text == Join(Pieces(m, names), ':')
  }

  /** The pairs of a piece list that are still in force. */
  function RestorePairs(pieces: seq<string>, now: nat): Names {
    if |pieces| < 2 then map[]
    else
      var n := |pieces|;
      var rest := RestorePairs(pieces[..n - 2], now);
      var expire := TryToLongLong(pieces[n - 1]).GetOr(0);
      if expire > 0 && now < expire then rest[pieces[n - 2] := expire] else rest
  }

  /** `restoreScheduleBlacklist`; an odd number of pieces is taken for malformed data. */
  function Restore(text: string, now: nat): Names {
    var pieces := Split(text, ':');
    if |pieces| == 0 || |pieces| % 2 != 0 then map[] else RestorePairs(pieces, now)
  }

  function Unexpired(m: Names, now: nat): Names {
    map q | q in m && now < m[q] :: m[q]
  }

  lemma {:induction false} PiecesShape(m: Names, names: seq<string>)
    requires GoodNames(m) && forall i :: 0 <= i < |names| ==> names[i] in m
    ensures |Pieces(m, names)| == 2 * |names|
    ensures forall i :: 0 <= i < |Pieces(m, names)| ==> CleanPiece(Pieces(m, names)[i], ':')
  {
    if names != [] {
      var last := names[|names| - 1];
      PiecesShape(m, names[..|names| - 1]);
      NumberIsClean(m[last], ':');
      assert GoodName(last);
    }
  }

  lemma RestoreLast(pieces: seq<string>, name: string, expire: nat, now: nat)
    requires expire < LLONG_BOUND
    ensures RestorePairs(pieces + [name, ToString(expire)], now) ==
            if now < expire then RestorePairs(pieces, now)[name := expire] else RestorePairs(pieces, now)
  {
    hide TryToLongLong, ToString;
    NumberRoundTrip(expire);
    var all := pieces + [name, ToString(expire)];
    assert all[..|all| - 2] == pieces;
  }

  lemma {:induction false} RestorePiecesIs(m: Names, names: seq<string>, now: nat)
    requires forall i :: 0 <= i < |names| ==> names[i] in m && m[names[i]] < LLONG_BOUND
    ensures var r := RestorePairs(Pieces(m, names), now);
            forall q :: (q in r <==> q in names && now < m[q]) && (q in r ==> r[q] == m[q])
  {
    if names != [] {
      var init, last := names[..|names| - 1], names[|names| - 1];
      RestorePiecesIs(m, init, now);
      RestoreLast(Pieces(m, init), last, m[last], now);
      hide RestorePairs, ToString;
      assert forall q :: q in names <==> q in init || q == last;
    }
  }

  /** Restoring a saved blacklist gives exactly its unexpired part. */
  lemma RestoreSaved(text: string, m: Names, now: nat)
    requires GoodNames(m) && Renders(text, m)
    ensures Restore(text, now) == Unexpired(m, now)
    ensures forall q :: q in Restore(text, now) <==> q in m && now < m[q]
  {
    hide Split, Join, RestorePairs, Pieces;
    var names :| Enumerates(names, m) && text == Join(Pieces(m, names), ':');
    PiecesShape(m, names);
    SplitJoin(Pieces(m, names), ':');
    RestorePiecesIs(m, names, now);
  }

  lemma {:induction false} RestoredKeys(pieces: seq<string>, now: nat, q: string)
    requires q in RestorePairs(pieces, now)
    ensures q in pieces
  {
    var n := |pieces|;
    if q != pieces[n - 2] {
      RestoredKeys(pieces[..n - 2], now, q);
    }
  }

  // ----- names that do not survive -----

  /** The number of pieces a text contributes to a list it is joined into. */
  function Fields(t: string): nat {
    |DropEmpty(SplitRaw(t, ':'))|
  }

  function TotalFields(ss: seq<string>): nat {
    if ss == [] then 0 else Fields(ss[0]) + TotalFields(ss[1..])
  }

  lemma {:induction false} TotalConcat(a: seq<string>, b: seq<string>)
    ensures TotalFields(a + b) == TotalFields(a) + TotalFields(b)
  {
    if a == [] {
      assert a + b == b;
    } else {
      assert (a + b)[1..] == a[1..] + b;
      TotalConcat(a[1..], b);
    }
  }

  lemma {:induction false} JoinFields(ss: seq<string>)
    ensures Fields(Join(ss, ':')) == TotalFields(ss)
  {
    if ss == [] {
      assert SplitRaw("", ':')[1..] == [];
    } else if |ss| == 1 {
      assert TotalFields(ss[1..]) == 0;
    } else {
      var rest := Join(ss[1..], ':');
      JoinFields(ss[1..]);
      SplitRawConcat(ss[0], rest, ':');
      DropEmptyConcat(SplitRaw(ss[0], ':'), SplitRaw(rest, ':'));
    }
  }

  lemma CleanField(t: string)
    requires CleanPiece(t, ':')
    ensures Fields(t) == 1
  {
    SplitRawOnly(t, ':');
    assert [t][1..] == [];
    assert DropEmpty([t]) == [t];
  }

  lemma {:induction false} PiecesFields(m: Names, names: seq<string>, bad: string)
    requires forall i :: 0 <= i < |names| ==> names[i] in m && (names[i] == bad || GoodName(names[i]))
    requires forall i, j :: 0 <= i < j < |names| ==> names[i] != names[j]
    ensures TotalFields(Pieces(m, names)) == 2 * |names| + (if bad in names then Fields(bad) - 1 else 0)
  {
    if names != [] {
      hide Fields, GoodName;
      var init, last := names[..|names| - 1], names[|names| - 1];
      PiecesFields(m, init, bad);
      var number := ToString(m[last]);
      TotalConcat(Pieces(m, init), [last, number]);
      NumberIsClean(m[last], ':');
      CleanField(number);
      TotalOfTwo(last, number);
      if last != bad {
        GoodField(last);
      }
      assert bad in names <==> bad in init || bad == last;
    }
  }

  lemma GoodField(name: string)
    requires GoodName(name)
    ensures Fields(name) == 1
  {
    CleanField(name);
  }

  lemma TotalOfTwo(a: string, b: string)
    ensures TotalFields([a, b]) == Fields(a) + Fields(b)
  {
    assert [a, b][1..] == [b] && [b][1..] == [];
    assert TotalFields([b]) == Fields(b) + TotalFields([]);
  }

  /** One name that splits into an even number of pieces makes the piece count odd: the whole
      blacklist is lost, the entries with good names included. */
  lemma EvenNameLosesAll(text: string, m: Names, bad: string, now: nat)
    requires Renders(text, m) && bad in m && Fields(bad) % 2 == 0
    requires forall q :: q in m && q != bad ==> GoodName(q)
    ensures Restore(text, now) == map[]
  {
    hide Pieces, Join, SplitRaw, TotalFields, GoodName, RestorePairs;
    var names :| Enumerates(names, m) && text == Join(Pieces(m, names), ':');
    PiecesFields(m, names, bad);
    JoinFields(Pieces(m, names));
  }

  /** So does a name with one colon between two clean parts. */
  lemma ColonLosesBlacklist(text: string, m: Names, left: string, right: string, now: nat)
    requires CleanPiece(left, ':') && CleanPiece(right, ':')
    requires var bad := left + ":" + right;
             Renders(text, m) && bad in m && forall q :: q in m && q != bad ==> GoodName(q)
    ensures Restore(text, now) == map[]
  {
    var bad := left + ":" + right;
    assert Fields(bad) == 2 by {
      SplitRawFirst(left, right, ':');
      SplitRawOnly(right, ':');
      assert [left] + [right] == [left, right];
      DropEmptyNone([left, right]);
    }
    hide Fields, Renders, Restore, GoodName;
    EvenNameLosesAll(text, m, bad, now);
  }

  lemma Reassociate(p: string, c: string, d: string, e: string)
    ensures p + ":" + c + ":" + d + ":" + e == p + ":" + (c + ":" + d) + ":" + e
  {
  }

  lemma MisreadText(e: string)
    ensures Join(["a:b", e, "c:d", e], ':') == Join(["a", "b", e, "c", "d", e], ':')
  {
    JoinMore([], "a:b", e);
    JoinMore(["a:b", e], "c:d", e);
    JoinMore([], "a", "b");
    JoinMore(["a", "b"], e, "c");
    JoinMore(["a", "b", e, "c"], "d", e);
    hide Join;
    assert [] + ["a:b", e] == ["a:b", e] && ["a:b", e] + ["c:d", e] == ["a:b", e, "c:d", e];
    assert ["a", "b"] == [] + ["a", "b"] && ["a", "b"] + [e, "c"] == ["a", "b", e, "c"];
    assert ["a", "b", e, "c"] + ["d", e] == ["a", "b", e, "c", "d", e];
    assert "a" + ":" + "b" == "a:b" && "c" + ":" + "d" == "c:d";
    Reassociate("a:b" + ":" + e, "c", "d", e);
  }

  lemma MisreadPairs(expire: nat, now: nat)
    requires now < expire < LLONG_BOUND
    ensures var e := ToString(expire);
            RestorePairs(["a", "b", e, "c", "d", e], now) == map["d" := expire]
  {
    var e := ToString(expire);
    RestoreLast(["a", "b", e, "c"], "d", expire, now);
    assert ["a", "b", e, "c"] + ["d", e] == ["a", "b", e, "c", "d", e];
    assert TryToLongLong("c") == None && TryToLongLong("b") == None;
    hide ToString, TryToLongLong;
    assert ["a", "b", e, "c"][..2] == ["a", "b"] && ["a", "b"][..0] == [];
    assert RestorePairs(["a", "b"], now) == map[];
    assert RestorePairs(["a", "b", e, "c"], now) == map[];
  }

  lemma MisreadRendered(m: Names, expire: nat)
    requires m == map["a:b" := expire, "c:d" := expire]
    ensures var e := ToString(expire); Renders(Join(["a:b", e, "c:d", e], ':'), m)
  {
    hide Join, ToString;
    var names := ["a:b", "c:d"];
    assert "a:b"[0] != "c:d"[0];
    assert names[..1] == ["a:b"] && ["a:b"][..0] == [];
    assert Pieces(m, ["a:b"]) == Pieces(m, []) + ["a:b", ToString(expire)];
    assert Pieces(m, names) == ["a:b", ToString(expire), "c:d", ToString(expire)];
    assert Enumerates(names, m);
  }

  /** Two such names are misread instead: an entry turns up for a query that was never listed. */
  lemma TwoColonsAreMisread(expire: nat, now: nat)
    requires now < expire < LLONG_BOUND
    ensures var m: Names := map["a:b" := expire, "c:d" := expire];
            exists text :: Renders(text, m) && Restore(text, now) == map["d" := expire]
  {
    hide Renders, Join, Split, RestorePairs, ToString;
    var e := ToString(expire);
    MisreadRendered(map["a:b" := expire, "c:d" := expire], expire);
    MisreadText(e);
    NumberIsClean(expire, ':');
    SplitJoin(["a", "b", e, "c", "d", e], ':');
    MisreadPairs(expire, now);
    assert Restore(Join(["a:b", e, "c:d", e], ':'), now) == map["d" := expire];
  }

  /** A saved list of entries in force comes back whole exactly when every name is good. */
  lemma ListSurvives(text: string, m: Names, now: nat)
    requires Renders(text, m) && forall q :: q in m ==> now < m[q] < LLONG_BOUND
    ensures Restore(text, now) == m <==> forall q :: q in m ==> GoodName(q)
  {
    hide Renders, Restore, Split;
    if forall q :: q in m ==> GoodName(q) {
      RestoreSaved(text, m, now);
      assert Unexpired(m, now) == m;
    } else if q :| q in m && q != "" && !GoodName(q) {
      if q in Restore(text, now) {
        RestoredAreClean(text, now, q);
      }
    } else {
      assert "" in m;
      assert Fields("") == 0;
      EvenNameLosesAll(text, m, "", now);
    }
  }

  /** Whatever the text is, a restored name is trimmed and free of colons. */
  lemma RestoredAreClean(text: string, now: nat, q: string)
    requires q in Restore(text, now)
    ensures Trimmed(q) && ':' !in q
  {
    hide Split;
    RestoredKeys(Split(text, ':'), now, q);
    SplitPieces(text, ':');
  }

  // ----- the protocol -----

  /** `Starting` lies between the two writes of the constructor: the executing key is cleared already
      and the blacklist not yet saved. */
  datatype Phase = Down | Starting(crashed: string) | Running

  /** What survives a crash, what does not, and the launches so far. `saved` is the map whose
      rendering is on disk. */
  datatype World = World(
    executing: string,
    failed: string,
    saved: Names,
    phase: Phase,
    blacklist: Names,
    clock: nat,
    launches: seq<Launch>)

  datatype Launch = Launch(name: string, time: nat)

  /** `text` is what the step writes if it saves the blacklist. */
  datatype Step =
    | Boot(now: nat)
    | Save(now: nat, text: string)
    | Consider(name: string, optOut: bool, due: bool, now: nat, text: string)
    | Finish(cleared: bool, now: nat)
    | Die(now: nat)

  function Initial(): World {
    World("", "", map[], Down, map[], 0, [])
  }

  /** The lookup of `scheduledQueries`: the entry is gone, or has run out, or the query opted out. */
  predicate Permitted(blacklist: Names, name: string, optOut: bool, now: nat) {
    name in blacklist ==> now > blacklist[name] || optOut
  }

  ghost predicate Enabled(w: World, step: Step) {
    && w.clock <= step.now && step.now + ONE_DAY < LLONG_BOUND
    && match step
       case Boot(now) => w.phase.Down?
       case Save(now, text) =>
         w.phase.Starting? && Renders(text, w.blacklist[w.phase.crashed := now + ONE_DAY])
       case Consider(name, optOut, due, now, text) =>
         w.phase.Running? && GoodName(name) &&
         (name in w.blacklist && Permitted(w.blacklist, name, optOut, now) ==> Renders(text, w.blacklist - {name}))
       case Finish(cleared, now) => w.phase.Running?
       case Die(now) => !w.phase.Down?
  }

  function Next(w: World, step: Step): World
    requires step.Save? ==> w.phase.Starting?
  {
    match step
    case Boot(now) =>
      w.(clock := now, blacklist := Restore(w.failed, now), executing := "",
         phase := if w.executing == "" then Running else Starting(w.executing))
    case Save(now, text) =>
      var list := w.blacklist[w.phase.crashed := now + ONE_DAY];
      w.(clock := now, phase := Running, blacklist := list, failed := text, saved := list)
    case Consider(name, optOut, due, now, text) =>
      var permitted := Permitted(w.blacklist, name, optOut, now);
      var u := w.(clock := now,
                  executing := if permitted && due then name else w.executing,
                  launches := if permitted && due then w.launches + [Launch(name, now)] else w.launches);
      if permitted && name in w.blacklist
      then u.(blacklist := w.blacklist - {name}, failed := text, saved := w.blacklist - {name})
      else u
    case Finish(cleared, now) => w.(clock := now, executing := if cleared then "" else w.executing)
    case Die(now) => w.(clock := now, phase := Down, blacklist := map[])
  }

  ghost predicate OnDisk(w: World) {
    Renders(w.failed, w.saved) && GoodNames(w.saved)
  }

  /** A living process knows the entries on disk that have not run out, and no others. */
  ghost predicate Loaded(w: World) {
    && (forall q :: q in w.blacklist ==> q in w.saved && w.saved[q] == w.blacklist[q])
    && (forall q :: q in w.saved && !w.phase.Down? && q !in w.blacklist ==> w.saved[q] <= w.clock)
  }

  /** A query that was launched has no entry in force on disk. */
  ghost predicate NotListed(w: World, q: string) {
    q == "" || (GoodName(q) && (q in w.saved ==> w.saved[q] <= w.clock))
  }

  ghost predicate WorldInv(w: World) {
    && OnDisk(w) && Loaded(w) && NotListed(w, w.executing)
    && (w.phase.Starting? ==> w.executing == "" && w.phase.crashed != "" && NotListed(w, w.phase.crashed))
  }

  lemma InitialInv()
    ensures WorldInv(Initial())
  {
    assert Enumerates([], map[]);
  }

  lemma StepKeeps(w: World, step: Step)
    requires WorldInv(w) && Enabled(w, step)
    ensures WorldInv(Next(w, step))
  {
    hide Renders, GoodName, Restore;
    if step.Boot? {
      RestoreSaved(w.failed, w.saved, step.now);
    }
  }

  /** Until `until`, query q is blocked: in the running process, or else by what is on disk. */
  ghost predicate Blocked(w: World, q: string, until: nat) {
    w.clock < until ==>
      && q in w.saved && until <= w.saved[q]
      && (!w.phase.Down? ==> q in w.blacklist && until <= w.blacklist[q])
  }

  predicate OptsOut(step: Step, q: string) {
    step.Consider? && step.name == q && step.optOut
  }

  lemma BlockedStays(w: World, step: Step, q: string, until: nat)
    requires WorldInv(w) && Enabled(w, step) && Blocked(w, q, until) && !OptsOut(step, q)
    requires w.clock + ONE_DAY >= until
    ensures Blocked(Next(w, step), q, until)
    ensures Next(w, step).launches == w.launches ||
            (step.Consider? && Next(w, step).launches == w.launches + [Launch(step.name, step.now)] &&
             (step.name == q ==> step.now >= until))
  {
    hide Renders, GoodName, Restore;
    if step.Boot? {
      RestoreSaved(w.failed, w.saved, step.now);
    }
  }

  ghost predicate Possible(w: World, steps: seq<Step>)
    decreases steps
  {
    steps == [] || (Enabled(w, steps[0]) && Possible(Next(w, steps[0]), steps[1..]))
  }

  ghost function Exec(w: World, steps: seq<Step>): World
    requires Possible(w, steps)
    decreases steps
  {
    if steps == [] then w else Exec(Next(w, steps[0]), steps[1..])
  }

  lemma {:induction false} ExecKeeps(w: World, steps: seq<Step>)
    requires WorldInv(w) && Possible(w, steps)
    ensures WorldInv(Exec(w, steps))
    decreases steps
  {
    if steps != [] {
      hide WorldInv, Next;
      StepKeeps(w, steps[0]);
      ExecKeeps(Next(w, steps[0]), steps[1..]);
    }
  }

  ghost predicate NoEarlyLaunch(launches: seq<Launch>, from: nat, q: string, until: nat) {
    forall i :: from <= i < |launches| && launches[i].name == q ==> launches[i].time >= until
  }

  ghost predicate NeverOptsOut(steps: seq<Step>, q: string) {
    forall i :: 0 <= i < |steps| ==> !OptsOut(steps[i], q)
  }

  lemma {:induction false} BlockedThroughout(w: World, steps: seq<Step>, q: string, until: nat, from: nat)
    requires WorldInv(w) && Possible(w, steps) && Blocked(w, q, until) && w.clock + ONE_DAY >= until
    requires NeverOptsOut(steps, q)
    requires from <= |w.launches| && NoEarlyLaunch(w.launches, from, q, until)
    ensures NoEarlyLaunch(Exec(w, steps).launches, from, q, until)
    decreases steps
  {
    hide WorldInv, Next, Blocked, Renders;
    if steps != [] {
      var n := Next(w, steps[0]);
      StepKeeps(w, steps[0]);
      BlockedStays(w, steps[0], q, until);
      ClockForward(w, steps[0]);
      BlockedThroughout(n, steps[1..], q, until, from);
    }
  }

  lemma ClockForward(w: World, step: Step)
    requires Enabled(w, step)
    ensures w.clock <= Next(w, step).clock
  {
  }

  /** Whatever happens next, in this lifetime or any later one, q is not launched before `until`
      unless the schedule asks in between not to blacklist it. */
  ghost predicate StaysOut(w: World, q: string, until: nat) {
    forall steps :: Possible(w, steps) && NeverOptsOut(steps, q) ==>
      NoEarlyLaunch(Exec(w, steps).launches, |w.launches|, q, until)
  }

  lemma SavedStaysOut(w: World, save: Step)
    requires WorldInv(w) && Enabled(w, save) && save.Save?
    ensures StaysOut(Next(w, save), w.phase.crashed, save.now + ONE_DAY)
  {
    hide Exec, Possible, Renders;
    var n, q, until := Next(w, save), w.phase.crashed, save.now + ONE_DAY;
    StepKeeps(w, save);
    forall steps | Possible(n, steps) && NeverOptsOut(steps, q)
      ensures NoEarlyLaunch(Exec(n, steps).launches, |n.launches|, q, until)
    {
      BlockedThroughout(n, steps, q, until, |n.launches|);
    }
  }

  lemma TwoSteps(w: World, a: Step, b: Step)
    requires Enabled(w, a) && Enabled(Next(w, a), b)
    ensures Possible(w, [a, b]) && Exec(w, [a, b]) == Next(Next(w, a), b)
  {
    hide Possible, Exec;
    NoSteps(Next(Next(w, a), b));
    OneMore(Next(w, a), b, []);
    OneMore(w, a, [b] + []);
    assert [a] + ([b] + []) == [a, b];
  }

  /** A process that is down and knows of no crash restarts and launches q at once. */
  lemma ForgottenIsLaunched(w: World, q: string)
    requires WorldInv(w) && w.phase.Down? && w.executing == "" && w.clock + ONE_DAY < LLONG_BOUND
    requires q != "" && NotListed(w, q)
    ensures !StaysOut(w, q, w.clock + ONE_DAY)
  {
    hide Renders, GoodName, Restore, Possible, Exec;
    var boot, consider := Boot(w.clock), Consider(q, false, true, w.clock, "");
    RestoreSaved(w.failed, w.saved, w.clock);
    TwoSteps(w, boot, consider);
    var launches := Exec(w, [boot, consider]).launches;
    assert launches[|w.launches|] == Launch(q, w.clock);
    assert NeverOptsOut([boot, consider], q);
  }

  /** The crash blacklist across lifetimes. When a process starts while the executing key names q, then q
      stays out for a day from the save, in this lifetime and all later ones, exactly when the process
      reaches the save; a death between the constructor's two writes forgets the crash. */
  lemma CrashedQueryStaysOut(before: seq<Step>, boot: Step, second: Step)
    requires Possible(Initial(), before) && boot.Boot?
    requires var w := Exec(Initial(), before);
             w.executing != "" && Enabled(w, boot) && Enabled(Next(w, boot), second)
    ensures var w := Exec(Initial(), before);
            var n := Next(Next(w, boot), second);
            && n.launches == w.launches
            && (StaysOut(n, w.executing, second.now + 86400) <==> second.Save?)
  {
    hide Exec, Possible, Renders, Restore, StaysOut;
    InitialInv();
    ExecKeeps(Initial(), before);
    var w := Exec(Initial(), before);
    StepKeeps(w, boot);
    var u := Next(w, boot);
    StepKeeps(u, second);
    if second.Save? {
      SavedStaysOut(u, second);
    } else {
      ForgottenIsLaunched(Next(u, second), w.executing);
    }
  }

  // ----- release -----

  /** A look-up launches a due query exactly when it has no entry, its entry has run out or it opts out; then the
      entry is gone from the list and from disk, the executing key names the query, and all other
      entries stay. Otherwise nothing happens. */
  lemma LookUpIs(w: World, look: Step)
    requires look.Consider?
    ensures var n, q := Next(w, look), look.name;
            var free := q !in w.blacklist || look.now > w.blacklist[q] || look.optOut;
            && n.launches == (if free && look.due then w.launches + [Launch(q, look.now)] else w.launches)
            && n.executing == (if free && look.due then q else w.executing)
            && n.blacklist == (if free then w.blacklist - {q} else w.blacklist)
            && (free && q in w.blacklist ==> n.saved == w.blacklist - {q})
            && (!free || q !in w.blacklist ==> n.saved == w.saved && n.failed == w.failed)
            && n.phase == w.phase
  {
  }

  predicate NoDeath(steps: seq<Step>) {
    forall i :: 0 <= i < |steps| ==> !steps[i].Die?
  }

  lemma {:induction false} EntryStays(w: World, steps: seq<Step>, q: string, until: nat)
    requires w.phase.Running? && Possible(w, steps) && NoDeath(steps) && (q in w.blacklist ==> w.blacklist[q] == until)
    ensures var n := Exec(w, steps); n.phase.Running? && (q in n.blacklist ==> n.blacklist[q] == until)
    decreases steps
  {
    hide Renders, GoodName, Restore;
    if steps != [] {
      EntryStays(Next(w, steps[0]), steps[1..], q, until);
    }
  }

  /** The blacklist lets go: in the lifetime that saved the crashed query, any due look-up more than a day after
      the save launches it. */
  lemma ReleasedAfterADay(w: World, save: Step, steps: seq<Step>, look: Step)
    requires save.Save? && Enabled(w, save) && Possible(Next(w, save), steps) && NoDeath(steps)
    requires look.Consider? && look.due && look.name == w.phase.crashed && look.now > save.now + 86400
    requires Enabled(Exec(Next(w, save), steps), look)
    ensures var n := Exec(Next(w, save), steps);
            Next(n, look).launches == n.launches + [Launch(w.phase.crashed, look.now)]
  {
    hide Possible, Exec, Renders;
    EntryStays(Next(w, save), steps, w.phase.crashed, save.now + ONE_DAY);
    LookUpIs(Exec(Next(w, save), steps), look);
  }

  /** A query that is launched, takes the process down and is saved by the next start stays out. */
  lemma KilledQueryStaysOut(before: seq<Step>, look: Step, die: Step, boot: Step, save: Step)
    requires Possible(Initial(), before) && look.Consider? && look.due && die.Die? && boot.Boot? && save.Save?
    requires var w := Exec(Initial(), before);
             && Enabled(w, look) && (look.name in w.blacklist ==> look.now > w.blacklist[look.name] || look.optOut)
             && Enabled(Next(w, look), die) && Enabled(Next(Next(w, look), die), boot)
             && Enabled(Next(Next(Next(w, look), die), boot), save)
    ensures var w := Exec(Initial(), before);
            StaysOut(Next(Next(Next(Next(w, look), die), boot), save), look.name, save.now + 86400)
  {
    hide Exec, Possible, Renders, Restore, StaysOut, GoodName;
    InitialInv();
    ExecKeeps(Initial(), before);
    var w := Exec(Initial(), before);
    NamesAreGood(w, look);
    LookUpIs(w, look);
    StepKeeps(w, look);
    StepKeeps(Next(w, look), die);
    var d := Next(Next(w, look), die);
    StepKeeps(d, boot);
    SavedStaysOut(Next(d, boot), save);
  }

  lemma NamesAreGood(w: World, look: Step)
    requires Enabled(w, look) && look.Consider?
    ensures look.name != ""
  {
  }

  /** A query that finished is not held against the schedule: a start after its end adds no entry, and
      knows exactly those on disk that have not run out. */
  lemma FinishedIsNotListed(before: seq<Step>, finish: Step, die: Step, boot: Step)
    requires Possible(Initial(), before) && finish.Finish? && finish.cleared && die.Die? && boot.Boot?
    requires var w := Exec(Initial(), before);
             && Enabled(w, finish) && Enabled(Next(w, finish), die) && Enabled(Next(Next(w, finish), die), boot)
    ensures var w := Exec(Initial(), before);
            var n := Next(Next(Next(w, finish), die), boot);
            n.phase == Running && n.blacklist == Unexpired(w.saved, boot.now) && n.saved == w.saved
  {
    hide Exec, Possible, Renders, Restore, GoodName;
    InitialInv();
    ExecKeeps(Initial(), before);
    var w := Exec(Initial(), before);
    RestoreSaved(w.failed, w.saved, boot.now);
  }

  /** Such a run: q crashes the daemon, the next start dies between its two writes, and the one after
      that launches q three seconds after the crash. */
  lemma {:induction false} DeathDuringStart()
    ensures var steps := [Boot(0), Consider("q", false, true, 1, ""), Die(2), Boot(3), Die(3), Boot(4),
                          Consider("q", false, true, 5, "")];
            && Possible(Initial(), steps)
            && Exec(Initial(), steps).launches == [Launch("q", 1), Launch("q", 5)]
  {
    hide Renders, Restore;
    NothingRestored(0);
    NothingRestored(3);
    NothingRestored(4);
  }

  lemma NothingRestored(now: nat)
    ensures Restore("", now) == map[]
  {
  }

  lemma NoSteps(w: World)
    ensures Possible(w, []) && Exec(w, []) == w
  {
  }

  lemma OneMore(w: World, step: Step, rest: seq<Step>)
    requires Enabled(w, step) && Possible(Next(w, step), rest)
    ensures Possible(w, [step] + rest) && Exec(w, [step] + rest) == Exec(Next(w, step), rest)
  {
    assert ([step] + rest)[1..] == rest;
  }

  // ----- the code -----

  class Schedule {
    // persistent settings
    var executing: string
    var failed: string
    // the object
    var blacklist: Names

    /** The constructor, in a process that dies between its two writes unless it `survives`. */
    constructor Start(executing: string, failed: string, now: nat, later: nat, survives: bool)
      ensures this.executing == ""
      ensures executing == "" || !survives ==> this.failed == failed && blacklist == Restore(failed, now)
      ensures executing != "" && survives ==>
                blacklist == Restore(failed, now)[executing := later + ONE_DAY] && Renders(this.failed, blacklist)
    {
      this.executing, this.failed, this.blacklist := executing, failed, map[];
      new;
      RestoreScheduleBlacklist(now);
      if this.executing != "" {
        var failedQuery := this.executing;
        this.executing := "";
        if !survives {
          return;
        }
        blacklist := blacklist[failedQuery := later + ONE_DAY];
        SaveScheduleBlacklist();
      }
    }

    method RestoreScheduleBlacklist(now: nat)
      requires blacklist == map[]
      modifies this`blacklist
      ensures blacklist == Restore(failed, now)
    {
      hide Split, TryToLongLong;
      var pairs := Split(failed, ':');
      if |pairs| == 0 || |pairs| % 2 != 0 {
        return;
      }
      for i := 0 to |pairs| / 2
        invariant blacklist == RestorePairs(pairs[..2 * i], now)
      {
        assert pairs[..2 * (i + 1)][..2 * i] == pairs[..2 * i];
        var expire := TryToLongLong(pairs[2 * i + 1]).GetOr(0);
        if expire > 0 && now < expire {
          blacklist := blacklist[pairs[2 * i] := expire];
        }
      }
      assert pairs[..2 * (|pairs| / 2)] == pairs;
    }

    method SaveScheduleBlacklist()
      modifies this`failed
      ensures Renders(failed, blacklist)
    {
      hide Join, Pieces, ToString;
      var content, left := "", blacklist.Keys;
      ghost var names := [];
      SavedNothing(blacklist);
      while left != {}
        invariant left <= blacklist.Keys
        invariant forall i :: 0 <= i < |names| ==> names[i] in blacklist && names[i] !in left
        invariant forall q :: q in blacklist && q !in left ==> q in names
        invariant forall i, j :: 0 <= i < j < |names| ==> names[i] != names[j]
        invariant content == Join(Pieces(blacklist, names), ':') && (content == "" <==> names == [])
        decreases left
      {
        var name :| name in left;
        left := left - {name};
        SavedMore(blacklist, names, name, content);
        if content != "" {
          content := content + ":";
        }
        content := content + name + ":" + ToString(blacklist[name]);
        names := names + [name];
      }
      assert Enumerates(names, blacklist);
      failed := content;
    }

    /** The blacklist lookup of `scheduledQueries` for one query. */
    method Consider(name: string, optOut: bool, now: nat) returns (permitted: bool)
      modifies this`blacklist, this`failed
      ensures permitted <==> name !in old(blacklist) || now > old(blacklist)[name] || optOut
      ensures permitted && name in old(blacklist) ==> blacklist == old(blacklist) - {name} && Renders(failed, blacklist)
      ensures !(permitted && name in old(blacklist)) ==> blacklist == old(blacklist) && failed == old(failed)
    {
      if name in blacklist {
        if now > blacklist[name] || optOut {
          blacklist := blacklist - {name};
          SaveScheduleBlacklist();
        } else {
          return false;
        }
      }
      return true;
    }
  }

  lemma {:induction false} JoinMore(ps: seq<string>, name: string, number: string)
    ensures Join(ps + [name, number], ':') ==
            (if ps == [] then "" else Join(ps, ':') + ":") + name + ":" + number
  {
    var all := ps + [name, number];
    if ps == [] {
      assert all == [name, number] && all[1..] == [number];
    } else {
      assert all[1..] == ps[1..] + [name, number];
      JoinMore(ps[1..], name, number);
      if |ps| == 1 {
        assert ps[1..] == [];
      }
    }
  }

  lemma SavedNothing(m: Names)
    ensures Join(Pieces(m, []), ':') == ""
  {
  }

  lemma SavedMore(m: Names, names: seq<string>, name: string, content: string)
    requires (forall i :: 0 <= i < |names| ==> names[i] in m) && name in m
    requires content == Join(Pieces(m, names), ':') && (content == "" <==> names == [])
    ensures var all := names + [name];
            && (forall i :: 0 <= i < |all| ==> all[i] in m)
            && Join(Pieces(m, all), ':') == (if content == "" then "" else content + ":") + name + ":" + ToString(m[name])
            && Join(Pieces(m, all), ':') != ""
  {
    hide Join, ToString;
    JoinMore(Pieces(m, names), name, ToString(m[name]));
    PiecesCount(m, names);
    assert (names + [name])[..|names|] == names;
  }

  lemma {:induction false} PiecesCount(m: Names, names: seq<string>)
    requires forall i :: 0 <= i < |names| ==> names[i] in m
    ensures |Pieces(m, names)| == 2 * |names|
  {
    if names != [] {
      PiecesCount(m, names[..|names| - 1]);
    }
  }
}
