/** Event ids over calls, crashes and restarts. */
module EventIds {
  import opened EventModel
  import opened EventInvariant
  import opened EventReads

  /** A call of `getEventID` that returns, one that dies after its database write, or a process
      that dies between calls. */
  datatype IdStep = Issue | DieAfterWrite | Die

  /** The database write of `getEventID`, without the increment that follows it. */
  function WriteBlock(s: State): State {
    var last := if s.lastEid == 0 then s.eidKey else s.lastEid;
    if last % 10 == 0 then s.(eidKey := last + 10) else s
  }

  function After(s: State, step: IdStep): State {
    match step
    case Issue => IssueEid(s)
    case DieAfterWrite => Restart(WriteBlock(s))
    case Die => Restart(s)
  }

  /** The ids handed out along the way. */
  function IdsOf(s: State, steps: seq<IdStep>): seq<nat>
    decreases steps
  {
    if steps == [] then []
    else
      var t := After(s, steps[0]);
      (if steps[0].Issue? then [t.lastEid] else []) + IdsOf(t, steps[1..])
  }

  /** Whatever crashes, the persisted block end bounds every id issued, so ids strictly increase. */
  lemma {:induction false} IdsNeverRepeat(s: State, steps: seq<IdStep>)
    requires Counters(s)
    ensures Increasing(IdsOf(s, steps))
    ensures forall id :: id in IdsOf(s, steps) ==> id > Top(s)
    decreases steps
  {
    if steps != [] {
      hide After, Counters, Top;
      var t := After(s, steps[0]);
      AfterCounts(s, steps[0]);
      IdsNeverRepeat(t, steps[1..]);
      var rest := IdsOf(t, steps[1..]);
      assert forall i :: 0 <= i < |rest| ==> rest[i] in rest;
    }
  }

  lemma AfterCounts(s: State, step: IdStep)
    requires Counters(s)
    ensures var t := After(s, step);
            Counters(t) && Top(s) <= Top(t) && (step.Issue? ==> Top(s) < t.lastEid == Top(t))
  {
  }
}
