/**
 * `cmd_ACE_CHANGE_TOOL` (extras/ace.py): the hook and request sequence of a tool change and
 * its two polling waits. What the waits see is supplied as a sequence of observations, one per
 * check of the loop condition, in the order the loops make them; the result is the outcome the
 * command ends with and the trace of macros, saves and requests it issued.
 */
module ToolChange {
  import opened Opt
  import opened Telemetry

  /** The ready wait after the retract gives up 10 s after it starts (milliseconds). */
  const ReadyWaitLimit: int := 10000
  /** The parking wait gives up 30 s after it starts. */
  const ParkWaitLimit: int := 30000

  /**
   * One check of a wait loop: the clock, `_info['slots'][was]['status']` (`None` when the
   * lookup raises), and the `_park_in_progress` / `_park_error` flags.
   */
  datatype Obs = Obs(clock: int, slotStatus: Option<Value>, parkInProgress: bool, parkError: bool)

  /** The flag discipline the parking supervisor keeps: every path that sets the error clears in-progress. */
  predicate Coherent(obs: seq<Obs>)
  {
    forall k :: 0 <= k < |obs| ==> obs[k].parkError ==> !obs[k].parkInProgress
  }

  datatype Event =
    | EmptyError(index: int)            // `_ACE_ON_EMPTY_ERROR INDEX=…`
    | PreToolchange(from: int, to: int) // `_ACE_PRE_TOOLCHANGE FROM=… TO=…`
    | SaveCurrentIndex(tool: int)       // `ace_current_index` stored and saved
    | Unwind(index: int)                // `unwind_filament` request for the old tool
    | Park(index: int)                  // `_park_to_toolhead` for the new tool
    | PostToolchange(from: int, to: int) // `_ACE_POST_TOOLCHANGE FROM=… TO=…`

  datatype Outcome =
    | AlreadySet      // "Tool already set"
    | LookupError     // a slot lookup raised
    | SlotNotReady    // target slot not ready: the empty-error macro ran
    | ReadyTimeout    // the old slot did not become ready within 10 s
    | ParkingFailed   // "Parking failed for slot …"
    | ParkingTimeout  // "Timeout waiting for parking to complete"
    | Changed         // "Tool changed from … to …"
    | Pending         // the observations ran out while a wait was still polling

  datatype ReadyEnd = SlotReady | ReadyTimedOut | ReadyRaised | ReadyPending
  datatype ParkEnd = ParkDone | ParkFailed | ParkTimedOut | ParkPending

  /** `reactor.monotonic() + limit`, read when a wait starts. */
  function Deadline(obs: seq<Obs>, limit: int): int
  {
    if obs == [] then limit else obs[0].clock + limit
  }

  /** The wait for the old slot to report ready; the second component is what is left unobserved. */
  function ReadyWait(obs: seq<Obs>, deadline: int): (ReadyEnd, seq<Obs>)
    decreases |obs|
  {
    if obs == [] then (ReadyPending, [])
    else if obs[0].slotStatus.None? then (ReadyRaised, obs[1..])
    else if obs[0].slotStatus.value == Ready then (SlotReady, obs[1..])
    else if obs[0].clock > deadline then (ReadyTimedOut, obs[1..])
    else ReadyWait(obs[1..], deadline)
  }

  /**
   * The wait for parking to finish. As written (`checkError` false) the loop runs while
   * `_park_in_progress` holds and tests `_park_error` only inside it; `checkError` adds the test
   * of `_park_error` after the loop has ended.
   */
  function ParkWait(obs: seq<Obs>, deadline: int, checkError: bool): (ParkEnd, seq<Obs>)
    decreases |obs|
  {
    if obs == [] then (ParkPending, [])
    else if !obs[0].parkInProgress then (if checkError && obs[0].parkError then ParkFailed else ParkDone, obs[1..])
    else if obs[0].parkError then (ParkFailed, obs[1..])
    else if obs[0].clock > deadline then (ParkTimedOut, obs[1..])
    else ParkWait(obs[1..], deadline, checkError)
  }

  /** Parking the new tool, its wait, and the post-toolchange macro. */
  function ParkPhase(was: int, tool: int, trace: seq<Event>, obs: seq<Obs>, checkError: bool): (Outcome, seq<Event>)
  {
    match ParkWait(obs, Deadline(obs, ParkWaitLimit), checkError).0
    case ParkPending => (Pending, trace + [Park(tool)])
    case ParkFailed => (ParkingFailed, trace + [Park(tool)])
    case ParkTimedOut => (ParkingTimeout, trace + [Park(tool)])
    case ParkDone => (Changed, trace + [Park(tool), PostToolchange(was, tool)])
  }

  /**
   * The tool change from `was` (the saved `ace_current_index`) to `tool` (-1 unloads), with
   * the telemetry `info` at the start and the observations the waits make.
   */
  function Change(was: int, tool: int, info: Info, obs: seq<Obs>, checkError: bool): (r: (Outcome, seq<Event>))
    requires -1 <= tool <= 3
    ensures was == tool ==> r == (AlreadySet, [])
    ensures was != tool && tool != -1 && SlotStatus(info, tool).None? ==> r == (LookupError, [])
    ensures was != tool && tool != -1 && SlotStatus(info, tool).Some? && SlotStatus(info, tool).value != Ready ==>
              r == (SlotNotReady, [EmptyError(tool)])
    // past the checks the pre-hook runs and the new index is saved before any retract or park
    ensures was != tool && (tool == -1 || SlotStatus(info, tool) == Some(Ready)) ==>
              && 3 <= |r.1| <= 5 && r.1[0] == PreToolchange(was, tool) && r.1[1] == SaveCurrentIndex(tool)
              && (was != -1 <==> r.1[2] == Unwind(was))
              && (r.1[2] == Park(tool) || (|r.1| > 3 && r.1[3] == Park(tool)) <==> tool != -1 && (was == -1 || ReadyWait(obs, Deadline(obs, ReadyWaitLimit)).0 == SlotReady))
    // the post-hook runs exactly when the command reports the change, and always last
    ensures r.0 == Changed <==> |r.1| > 0 && r.1[|r.1| - 1] == PostToolchange(was, tool)
    ensures PostToolchange(was, tool) in r.1 ==> r.0 == Changed
    ensures r.0 == ReadyTimeout ==> r.1 == [PreToolchange(was, tool), SaveCurrentIndex(tool), Unwind(was)]
    // the ready wait after the retract decides: a timeout or a raising lookup ends the command after the retract
    ensures was != tool && was != -1 && (tool == -1 || SlotStatus(info, tool) == Some(Ready)) &&
            ReadyWait(obs, Deadline(obs, ReadyWaitLimit)).0 in {ReadyTimedOut, ReadyRaised} ==>
              r == (if ReadyWait(obs, Deadline(obs, ReadyWaitLimit)).0 == ReadyTimedOut then ReadyTimeout else LookupError,
                    [PreToolchange(was, tool), SaveCurrentIndex(tool), Unwind(was)])
    // an unload whose retracted slot reports ready is a completed change
    ensures was != tool && was != -1 && tool == -1 && ReadyWait(obs, Deadline(obs, ReadyWaitLimit)).0 == SlotReady ==>
              r == (Changed, [PreToolchange(was, tool), SaveCurrentIndex(tool), Unwind(was), PostToolchange(was, tool)])
    // a load reaches the park (directly, or after the old slot reports ready) and the park wait decides
    ensures was != tool && tool != -1 && SlotStatus(info, tool) == Some(Ready) &&
            (was == -1 || ReadyWait(obs, Deadline(obs, ReadyWaitLimit)).0 == SlotReady) ==>
              var pre := if was == -1 then [PreToolchange(was, tool), SaveCurrentIndex(tool)]
                         else [PreToolchange(was, tool), SaveCurrentIndex(tool), Unwind(was)];
              var parkObs := if was == -1 then obs else ReadyWait(obs, Deadline(obs, ReadyWaitLimit)).1;
              var p := ParkWait(parkObs, Deadline(parkObs, ParkWaitLimit), checkError).0;
              && (p == ParkDone ==> r == (Changed, pre + [Park(tool), PostToolchange(was, tool)]))
              && (p == ParkTimedOut ==> r == (ParkingTimeout, pre + [Park(tool)]))
              && (p == ParkFailed ==> r == (ParkingFailed, pre + [Park(tool)]))
  {
    if was == tool then (AlreadySet, [])
    else if tool != -1 && SlotStatus(info, tool).None? then (LookupError, [])
    else if tool != -1 && SlotStatus(info, tool).value != Ready then (SlotNotReady, [EmptyError(tool)])
    else
      if was != -1 then
        var t := [PreToolchange(was, tool), SaveCurrentIndex(tool), Unwind(was)];
        var (e, rest) := ReadyWait(obs, Deadline(obs, ReadyWaitLimit));
        match e
        case ReadyPending => (Pending, t)
        case ReadyRaised => (LookupError, t)
        case ReadyTimedOut => (ReadyTimeout, t)
        case SlotReady =>
          if tool != -1 then ParkPhase(was, tool, t, rest, checkError)
          else (Changed, [PreToolchange(was, tool), SaveCurrentIndex(tool), Unwind(was), PostToolchange(was, tool)])
      else ParkPhase(was, tool, [PreToolchange(was, tool), SaveCurrentIndex(tool)], obs, checkError)
  }

  /** The loop waiting for the old slot to report ready; `i` counts the observations it made. */
  method AwaitReady(obs: seq<Obs>, deadline: int) returns (e: ReadyEnd, i: nat)
    ensures i <= |obs| && (e, obs[i..]) == ReadyWait(obs, deadline)
  {
    i := 0;
    while true
      invariant i <= |obs|
      invariant ReadyWait(obs[i..], deadline) == ReadyWait(obs, deadline)
      decreases |obs| - i
    {
      if i == |obs| {
        return ReadyPending, i;
      }
      assert obs[i..][1..] == obs[i + 1..];
      if obs[i].slotStatus.None? {
        return ReadyRaised, i + 1;
      }
      if obs[i].slotStatus.value == Ready {
        return SlotReady, i + 1;
      }
      if obs[i].clock > deadline {
        return ReadyTimedOut, i + 1;
      }
      i := i + 1;
    }
  }

  /** The loop waiting for parking to finish, as written: it runs while `_park_in_progress` holds. */
  method AwaitPark(obs: seq<Obs>, deadline: int) returns (e: ParkEnd, i: nat)
    ensures i <= |obs| && (e, obs[i..]) == ParkWait(obs, deadline, false)
  {
    i := 0;
    while true
      invariant i <= |obs|
      invariant ParkWait(obs[i..], deadline, false) == ParkWait(obs, deadline, false)
      decreases |obs| - i
    {
      if i == |obs| {
        return ParkPending, i;
      }
      assert obs[i..][1..] == obs[i + 1..];
      if !obs[i].parkInProgress {
        return ParkDone, i + 1;
      }
      if obs[i].parkError {
        return ParkFailed, i + 1;
      }
      if obs[i].clock > deadline {
        return ParkTimedOut, i + 1;
      }
      i := i + 1;
    }
  }

  /** `cmd_ACE_CHANGE_TOOL` as written, with its two polling loops. */
  method ChangeTool(was: int, tool: int, info: Info, obs: seq<Obs>) returns (outcome: Outcome, trace: seq<Event>)
    requires -1 <= tool <= 3
    ensures (outcome, trace) == Change(was, tool, info, obs, false)
  {
    if was == tool {
      return AlreadySet, [];
    }
    if tool != -1 {
      var status := SlotStatus(info, tool);
      if status.None? {
        return LookupError, [];
      }
      if status.value != Ready {
        return SlotNotReady, [EmptyError(tool)];
      }
    }
    trace := [PreToolchange(was, tool), SaveCurrentIndex(tool)];
    var rest := obs;
    if was != -1 {
      trace := [PreToolchange(was, tool), SaveCurrentIndex(tool), Unwind(was)];
      if obs == [] {
        return Pending, trace;
      }
      var e, i := AwaitReady(obs, obs[0].clock + ReadyWaitLimit);
      if e == ReadyPending {
        return Pending, trace;
      } else if e == ReadyRaised {
        return LookupError, trace;
      } else if e == ReadyTimedOut {
        return ReadyTimeout, trace;
      }
      rest := obs[i..];
      if tool == -1 {
        return Changed, [PreToolchange(was, tool), SaveCurrentIndex(tool), Unwind(was), PostToolchange(was, tool)];
      }
    }
    if rest == [] {
      return Pending, trace + [Park(tool)];
    }
    var e, _ := AwaitPark(rest, rest[0].clock + ParkWaitLimit);
    if e == ParkPending {
      return Pending, trace + [Park(tool)];
    } else if e == ParkFailed {
      return ParkingFailed, trace + [Park(tool)];
    } else if e == ParkTimedOut {
      return ParkingTimeout, trace + [Park(tool)];
    }
    return Changed, trace + [Park(tool), PostToolchange(was, tool)];
  }

  /**
   * The ready wait ends on ready only at the first observation that reports it; every earlier one
   * had a status other than ready and a clock within the deadline.
   */
  lemma {:induction false} ReadyWaitSeesReady(obs: seq<Obs>, deadline: int)
    ensures var (e, rest) := ReadyWait(obs, deadline);
            && |rest| <= |obs| && rest == obs[|obs| - |rest|..]
            && (e != ReadyPending ==> |rest| < |obs|)
            && (e == SlotReady ==> obs[|obs| - |rest| - 1].slotStatus == Some(Ready))
            && (e == ReadyTimedOut ==> obs[|obs| - |rest| - 1].clock > deadline)
            && (e != ReadyPending ==> forall j :: 0 <= j < |obs| - |rest| - 1 ==>
                  obs[j].slotStatus.Some? && obs[j].slotStatus.value != Ready && obs[j].clock <= deadline)
    decreases |obs|
  {
    if obs != [] && obs[0].slotStatus.Some? && obs[0].slotStatus.value != Ready && obs[0].clock <= deadline {
      ReadyWaitSeesReady(obs[1..], deadline);
      var (e, rest) := ReadyWait(obs[1..], deadline);
      assert obs[1..][|obs| - 1 - |rest|..] == obs[|obs| - |rest|..];
      forall j | 0 <= j < |obs| - |rest| - 1 && e != ReadyPending
        ensures obs[j].slotStatus.Some? && obs[j].slotStatus.value != Ready && obs[j].clock <= deadline
      {
        if j > 0 {
          assert obs[j] == obs[1..][j - 1];
        }
      }
    }
  }

  /**
   * The parking wait as written ends "done" at the first observation with `_park_in_progress`
   * false, whatever `_park_error` says; until then the session was running without error.
   */
  lemma {:induction false} ParkWaitEndsOnFlag(obs: seq<Obs>, deadline: int, checkError: bool)
    ensures var (e, rest) := ParkWait(obs, deadline, checkError);
            && |rest| <= |obs|
            && (e != ParkPending ==> |rest| < |obs|)
            && (e == ParkDone ==> !obs[|obs| - |rest| - 1].parkInProgress)
            && (e == ParkDone && checkError ==> !obs[|obs| - |rest| - 1].parkError)
            && (e == ParkFailed ==> obs[|obs| - |rest| - 1].parkError)
            && (e == ParkTimedOut ==> !obs[|obs| - |rest| - 1].parkError && obs[|obs| - |rest| - 1].clock > deadline)
            && (e != ParkPending ==> forall j :: 0 <= j < |obs| - |rest| - 1 ==>
                  obs[j].parkInProgress && !obs[j].parkError && obs[j].clock <= deadline)
    decreases |obs|
  {
    if obs != [] && obs[0].parkInProgress && !obs[0].parkError && obs[0].clock <= deadline {
      ParkWaitEndsOnFlag(obs[1..], deadline, checkError);
      var (e, rest) := ParkWait(obs[1..], deadline, checkError);
      forall j | 0 <= j < |obs| - |rest| - 1 && e != ParkPending
        ensures obs[j].parkInProgress && !obs[j].parkError && obs[j].clock <= deadline
      {
        if j > 0 {
          assert obs[j] == obs[1..][j - 1];
        }
      }
    }
  }

  /** With the flags the supervisor keeps, the loop as written never takes its error branch. */
  lemma {:induction false} ParkWaitNeverFails(obs: seq<Obs>, deadline: int)
    requires Coherent(obs)
    ensures ParkWait(obs, deadline, false).0 != ParkFailed
    decreases |obs|
  {
    if obs != [] && obs[0].parkInProgress {
      assert !obs[0].parkError;
      ParkWaitNeverFails(obs[1..], deadline);
    }
  }

  /** Hence the tool change as written never reports "Parking failed". */
  lemma ParkingFailedUnreachable(was: int, tool: int, info: Info, obs: seq<Obs>)
    requires -1 <= tool <= 3 && Coherent(obs)
    ensures Change(was, tool, info, obs, false).0 != ParkingFailed
  {
    ParkWaitNeverFails(obs, Deadline(obs, ParkWaitLimit));
    var rest := ReadyWait(obs, Deadline(obs, ReadyWaitLimit)).1;
    ReadyWaitSeesReady(obs, Deadline(obs, ReadyWaitLimit));
    assert Coherent(rest) by {
      forall k | 0 <= k < |rest| ensures rest[k].parkError ==> !rest[k].parkInProgress {
        assert rest[k] == obs[|obs| - |rest| + k];
      }
    }
    ParkWaitNeverFails(rest, Deadline(rest, ParkWaitLimit));
  }

  /**
   * A park that the supervisor aborts (error set, in-progress cleared) ends the tool change
   * as a success: the post-toolchange macro runs.
   */
  lemma FailedParkStillChanges(tool: int, info: Info, clock: int)
    requires 0 <= tool <= 3 && SlotStatus(info, tool) == Some(Ready)
    ensures var obs := [Obs(clock, None, true, false), Obs(clock + 1000, None, false, true)];
            Coherent(obs) &&
            Change(-1, tool, info, obs, false) ==
              (Changed, [PreToolchange(-1, tool), SaveCurrentIndex(tool), Park(tool), PostToolchange(-1, tool)])
  {
    var obs := [Obs(clock, None, true, false), Obs(clock + 1000, None, false, true)];
    var deadline := Deadline(obs, ParkWaitLimit);
    assert deadline == clock + ParkWaitLimit;
    assert ParkWait(obs[1..], deadline, false).0 == ParkDone;
    assert ParkWait(obs, deadline, false).0 == ParkDone;
    assert [PreToolchange(-1, tool), SaveCurrentIndex(tool)] + [Park(tool), PostToolchange(-1, tool)] ==
           [PreToolchange(-1, tool), SaveCurrentIndex(tool), Park(tool), PostToolchange(-1, tool)];
  }

  /**
   * With the error flag checked after the wait, a tool change reports success only when the
   * session ended without error, and an aborted park is reported as a failure without the post-hook.
   */
  lemma IntendedReportsFailedPark(was: int, tool: int, info: Info, obs: seq<Obs>)
    requires 0 <= tool <= 3 && was == -1 && SlotStatus(info, tool) == Some(Ready)
    ensures var w := ParkWait(obs, Deadline(obs, ParkWaitLimit), true);
            var last := |obs| - |w.1| - 1;
            var r := Change(was, tool, info, obs, true);
            && (r.0 == Changed ==> 0 <= last && !obs[last].parkInProgress && !obs[last].parkError)
            && (w.0 != ParkPending && 0 <= last && obs[last].parkError ==>
                  r.0 == ParkingFailed && PostToolchange(was, tool) !in r.1)
  {
    var pre := [PreToolchange(was, tool), SaveCurrentIndex(tool)];
    assert Change(was, tool, info, obs, true) == ParkPhase(was, tool, pre, obs, true);
    ParkWaitEndsOnFlag(obs, Deadline(obs, ParkWaitLimit), true);
    assert pre + [Park(tool)] == [PreToolchange(was, tool), SaveCurrentIndex(tool), Park(tool)];
  }
}
