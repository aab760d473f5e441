/**
 * The parking supervisor of extras/ace.py: the session flags `_park_to_toolhead` sets, the
 * check the parking branch of `_handle_response` makes on each status result, and the reset
 * `_complete_parking` performs. Times are integer milliseconds.
 */
module Parking {
  import opened Telemetry

  /** The `_park_*`, `_assist_hit_count`, `_last_assist_count` and `_dwell_scheduled` fields. */
  datatype Session = Session(
    inProgress: bool,      // _park_in_progress
    error: bool,           // _park_error
    index: int,            // _park_index
    hits: int,             // _assist_hit_count
    last: Value,           // _last_assist_count
    increased: bool,       // _park_count_increased
    dwellScheduled: bool,  // _dwell_scheduled
    startTime: int)        // _park_start_time

  /** What a status result makes the supervisor do besides updating the session. */
  datatype Action =
    | NoAction
    | ScheduleRecheck        // a 0.7 s dwell whose only effect is clearing `_dwell_scheduled`
    | Failed
    | Complete(index: int)   // `_complete_parking` is called for this slot

  const NoProgressLimit: int := 3000
  const RecheckDelay: int := 700

  /** A session is never both failed and running; every path that sets the error clears the run. */
  predicate Consistent(s: Session)
  {
    s.error ==> !s.inProgress
  }

  /** The fields as `__init__` leaves them. */
  function InitialSession(): (s: Session)
    ensures Consistent(s) && !s.inProgress && s.index == -1
  {
    Session(false, false, -1, 0, Num(0), false, false, 0)
  }

  /** The flags `_park_to_toolhead` sets before sending `start_feed_assist`; the baseline count is kept. */
  function Start(s: Session, index: int, now: int): (r: Session)
    ensures Consistent(r) && r.inProgress && !r.error && r.index == index && r.hits == 0 && !r.increased
    ensures r.startTime == now && r.last == s.last && r.dwellScheduled == s.dwellScheduled
  {
    s.(inProgress := true, error := false, index := index, hits := 0, startTime := now, increased := false)
  }

  /** The flag part of `_complete_parking`: nothing happens unless a session runs; otherwise it ends cleanly. */
  function Finish(s: Session): (r: Session)
    ensures !s.inProgress ==> r == s
    ensures s.inProgress ==> !r.inProgress && !r.error && r.index == -1
    ensures r.hits == s.hits && r.last == s.last && r.increased == s.increased && r.dwellScheduled == s.dwellScheduled
    ensures Consistent(r)
  {
    if !s.inProgress then s
    else s.(inProgress := false, error := false, index := -1)
  }

  /** `current_assist_count > 0` for the counts the device reports. */
  predicate Positive(v: Value)
  {
    v.Num? && v.n > 0
  }

  /** `result.get('status', 'unknown')` and `result.get('feed_assist_count', 0)`. */
  function StatusOf(result: map<string, Value>): Value
  {
    if "status" in result then result["status"] else Str("unknown")
  }

  function CountOf(result: map<string, Value>): Value
  {
    if "feed_assist_count" in result then result["feed_assist_count"] else Num(0)
  }

  /**
   * The parking branch of `_handle_response` for one status result: `status` and `count` as reported,
   * `now` the clock, `threshold` the configured `park_hit_count`.
   */
  function Monitor(s: Session, status: Value, count: Value, now: int, threshold: int): (r: (Session, Action))
    ensures !s.inProgress || status != Ready ==> r == (s, NoAction)
    ensures s.inProgress && status == Ready && count != s.last ==>
              r.1 == NoAction && r.0 == s.(last := count, hits := 0, increased := s.increased || Positive(count))
    ensures s.inProgress && status == Ready && count == s.last ==> r.0.hits == s.hits + 1 && r.0.last == s.last
    // an unchanged count more than 3 s into a park whose counter never moved: the park fails and the slot is forgotten
    ensures s.inProgress && status == Ready && count == s.last && now - s.startTime > NoProgressLimit && !s.increased ==>
              r == (s.(hits := s.hits + 1, error := true, inProgress := false, index := -1), Failed)
    // otherwise `park_hit_count` unchanged results decide: completion if the counter ever moved, failure (slot kept) if not
    ensures s.inProgress && status == Ready && count == s.last && !(now - s.startTime > NoProgressLimit && !s.increased) &&
            s.hits + 1 >= threshold ==>
              r == (if s.increased then (s.(hits := s.hits + 1), Complete(s.index))
                    else (s.(hits := s.hits + 1, error := true, inProgress := false), Failed))
    // below the threshold the session keeps running with one recheck dwell pending
    ensures s.inProgress && status == Ready && count == s.last && !(now - s.startTime > NoProgressLimit && !s.increased) &&
            s.hits + 1 < threshold ==>
              r.0 == s.(hits := s.hits + 1, dwellScheduled := true) &&
              r.1 == (if s.dwellScheduled then NoAction else ScheduleRecheck)
    ensures Consistent(s) ==> Consistent(r.0)
    ensures r.1.Complete? ==> s.increased && r.0.inProgress && r.1.index == s.index && r.0.hits >= threshold
    ensures r.1 == Failed ==> !s.increased && !r.0.inProgress && r.0.error
    ensures r.1 == ScheduleRecheck ==> !s.dwellScheduled && r.0.dwellScheduled
    ensures r.1 != ScheduleRecheck ==> r.0.dwellScheduled == s.dwellScheduled
    ensures r.0.increased == (s.increased || (s.inProgress && status == Ready && count != s.last && Positive(count)))
    ensures r.0.startTime == s.startTime
  {
    if !s.inProgress || status != Ready then (s, NoAction)
    else if count != s.last then
      (s.(last := count, hits := 0, increased := s.increased || Positive(count)), NoAction)
    else
      var hits := s.hits + 1;
      if now - s.startTime > NoProgressLimit && !s.increased then
        (s.(hits := hits, error := true, inProgress := false, index := -1), Failed)
      else if hits >= threshold then
        if s.increased then (s.(hits := hits), Complete(s.index))
        else (s.(hits := hits, error := true, inProgress := false), Failed)
      else if !s.dwellScheduled then (s.(hits := hits, dwellScheduled := true), ScheduleRecheck)
      else (s.(hits := hits), NoAction)
  }

  /** One status result as the supervisor sees it. */
  datatype Poll = Poll(status: Value, count: Value, now: int)

  /** A sequence of status results, `_complete_parking` applied whenever the supervisor completes. */
  function Run(s: Session, polls: seq<Poll>, threshold: int): (Session, seq<Action>)
    decreases |polls|
  {
    if polls == [] then (s, [])
    else
      var (s1, a) := Monitor(s, polls[0].status, polls[0].count, polls[0].now, threshold);
      var s2 := if a.Complete? then Finish(s1) else s1;
      var (s3, actions) := Run(s2, polls[1..], threshold);
      (s3, [a] + actions)
  }

  /** Once no session runs, status results change nothing. */
  lemma {:induction false} RunIdle(s: Session, polls: seq<Poll>, threshold: int)
    requires !s.inProgress
    ensures Run(s, polls, threshold).0 == s
    ensures forall i :: 0 <= i < |Run(s, polls, threshold).1| ==> Run(s, polls, threshold).1[i] == NoAction
    decreases |polls|
  {
    if polls != [] {
      RunIdle(s, polls[1..], threshold);
    }
  }

  /** Every session state reached from a consistent one is consistent. */
  lemma {:induction false} RunConsistent(s: Session, polls: seq<Poll>, threshold: int)
    requires Consistent(s)
    ensures Consistent(Run(s, polls, threshold).0)
    decreases |polls|
  {
    if polls != [] {
      var (s1, a) := Monitor(s, polls[0].status, polls[0].count, polls[0].now, threshold);
      var s2 := if a.Complete? then Finish(s1) else s1;
      RunConsistent(s2, polls[1..], threshold);
    }
  }

  /** All polls report the device ready with the same count as the baseline. */
  predicate Stagnant(polls: seq<Poll>, count: Value)
  {
    forall i :: 0 <= i < |polls| ==> polls[i].status == Ready && polls[i].count == count
  }

  /**
   * Feed assist that never moves the counter cannot complete a park: after enough unchanged
   * polls the session ends in error, and no poll ever completes it.
   */
  lemma {:induction false} StagnantParkFails(s: Session, polls: seq<Poll>, threshold: int)
    requires s.inProgress && !s.increased && Consistent(s)
    requires Stagnant(polls, s.last)
    requires |polls| >= 1 && |polls| >= threshold - s.hits
    ensures var (r, actions) := Run(s, polls, threshold);
            !r.inProgress && r.error && (forall i :: 0 <= i < |actions| ==> !actions[i].Complete?)
    decreases |polls|
  {
    var p := polls[0];
    var (s1, a) := Monitor(s, p.status, p.count, p.now, threshold);
    assert a != Complete(s.index) && !a.Complete?;
    if s1.inProgress {
      assert s1.hits == s.hits + 1 && s1.last == s.last && !s1.increased;
      assert Stagnant(polls[1..], s1.last);
      StagnantParkFails(s1, polls[1..], threshold);
    } else {
      RunIdle(s1, polls[1..], threshold);
    }
  }

  /**
   * A park whose counter has not moved, seeing an unchanged ready result more than 3 s after it
   * started, ends in error with no slot recorded; nothing afterwards changes the session.
   */
  lemma StalledParkTimesOut(s: Session, p: Poll, polls: seq<Poll>, threshold: int)
    requires s.inProgress && !s.increased
    requires p.status == Ready && p.count == s.last && p.now - s.startTime > NoProgressLimit
    ensures var (r, actions) := Run(s, [p] + polls, threshold);
            r == s.(hits := s.hits + 1, error := true, inProgress := false, index := -1) &&
            |actions| == |polls| + 1 && actions[0] == Failed &&
            forall i :: 1 <= i < |actions| ==> actions[i] == NoAction
  {
    var s1 := s.(hits := s.hits + 1, error := true, inProgress := false, index := -1);
    assert ([p] + polls)[1..] == polls;
    RunIdle(s1, polls, threshold);
    RunLength(s1, polls, threshold);
  }

  /** A run produces one action per status result. */
  lemma {:induction false} RunLength(s: Session, polls: seq<Poll>, threshold: int)
    ensures |Run(s, polls, threshold).1| == |polls|
    decreases |polls|
  {
    if polls != [] {
      var (s1, a) := Monitor(s, polls[0].status, polls[0].count, polls[0].now, threshold);
      var s2 := if a.Complete? then Finish(s1) else s1;
      RunLength(s2, polls[1..], threshold);
    }
  }

  /**
   * Once the counter has moved, `park_hit_count` unchanged ready polls complete the park:
   * the supervisor asks `_complete_parking` to stop feed assist on the parked slot, and the session ends without error.
   */
  lemma {:induction false} ProgressingParkCompletes(s: Session, polls: seq<Poll>, threshold: int)
    requires s.inProgress && s.increased && !s.error
    requires Stagnant(polls, s.last)
    requires |polls| >= 1 && |polls| >= threshold - s.hits
    ensures var (r, actions) := Run(s, polls, threshold);
            !r.inProgress && !r.error && r.index == -1 && Complete(s.index) in actions
    decreases |polls|
  {
    var p := polls[0];
    var (s1, a) := Monitor(s, p.status, p.count, p.now, threshold);
    var s2 := if a.Complete? then Finish(s1) else s1;
    var rest := Run(s2, polls[1..], threshold);
    assert Run(s, polls, threshold) == (rest.0, [a] + rest.1);
    if a.Complete? {
      RunIdle(s2, polls[1..], threshold);
    } else {
      assert s1.inProgress && s1.increased && !s1.error && s1.index == s.index;
      assert Stagnant(polls[1..], s1.last);
      ProgressingParkCompletes(s1, polls[1..], threshold);
    }
  }
}
