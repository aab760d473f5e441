/**
 * Requests, callbacks and responses of the request dispatcher in extras/ace.py
 * (`send_request`, `_get_next_request_id`, `_writer_loop`, `_handle_response`).
 * JSON encoding is outside the model: a request is its id and method, a response the
 * decoded fields the dispatcher reads.
 */
module Dispatcher {
  import opened Opt
  import opened Telemetry
  import opened Parking
  import opened PyText

  /** Request ids wrap to 0 when they would reach this value. */
  const IdLimit: int := 300000

  /** `_get_next_request_id` applied to the stored counter. */
  function NextId(id: int): (r: int)
    ensures r < IdLimit
    ensures -1 <= id ==> 0 <= r
    ensures 0 <= id < IdLimit ==> r == (id + 1) % IdLimit
  {
    if id + 1 >= IdLimit then 0 else id + 1
  }

  /** The counter after `k` further requests. */
  function Successor(id: int, k: nat): int
  {
    if k == 0 then id else NextId(Successor(id, k - 1))
  }

  lemma {:induction false} SuccessorModular(id: int, k: nat)
    requires 0 <= id < IdLimit
    ensures Successor(id, k) == (id + k) % IdLimit
  {
    if k > 0 {
      SuccessorModular(id, k - 1);
      var q, r := (id + k - 1) / IdLimit, (id + k - 1) % IdLimit;
      if r + 1 < IdLimit {
        ModOf(id + k, q, r + 1);
      } else {
        ModOf(id + k, q + 1, 0);
      }
    }
  }

  /** Ids handed out within one cycle of 300000 requests are pairwise distinct. */
  lemma IdsDistinctWithinCycle(id: int, j: nat, k: nat)
    requires 0 <= id < IdLimit
    requires j < k < j + IdLimit
    ensures Successor(id, j) != Successor(id, k)
  {
    SuccessorModular(id, j);
    SuccessorModular(id, k);
    var a, b := id + j, id + k;
    var q, r := a / IdLimit, a % IdLimit;
    var d := k - j;
    if r + d < IdLimit {
      ModOf(b, q, r + d);
    } else {
      ModOf(b, q + 1, r + d - IdLimit);
    }
  }

  /** Euclidean division by the id limit is unique. */
  lemma ModOf(b: int, q: int, r: int)
    requires 0 <= r < IdLimit && b == q * IdLimit + r
    ensures b % IdLimit == r
  {
  }

  /** After exactly 300000 requests the counter is back where it started. */
  lemma CycleCloses(id: int, k: nat)
    requires 0 <= id < IdLimit && k == IdLimit
    ensures Successor(id, k) == id
  {
    SuccessorModular(id, k);
  }

  datatype Command =
    | GetInfo
    | GetStatus
    | StartFeedAssist(index: int)
    | StopFeedAssist(index: int)
    | UnwindFilament(index: int, length: int, speed: int)
    | OtherMethod(name: string)

  datatype Request = Request(id: int, command: Command)

  /**
   * The callbacks the core registers: `Opaque` for those that only log or answer the G-code
   * command, `StatusMerge` for the status poll, `ParkAck` for the acknowledgement of `start_feed_assist`.
   */
  datatype Callback = Opaque(token: nat) | StatusMerge | ParkAck

  datatype Task = Task(request: Request, callback: Callback)

  /** The top-level keys of a response object: absent keys are `None`. */
  datatype Response = Response(id: Option<int>, code: Option<Value>, result: Option<Value>, error: Option<Value>)

  /** `{'error': 'Queue overflow'}`, the argument of every shed callback. */
  const Overflow: Response := Response(None, None, None, Some(Str("Queue overflow")))

  datatype Invocation = Invocation(callback: Callback, response: Response)

  /** `response.get('code', 0) != 0`. */
  predicate CodeNonZero(r: Response)
  {
    r.code.Some? && r.code.value != Num(0)
  }

  /**
   * `'msg' in result` followed by `result['msg']` raises TypeError: `in` raises on values other
   * than strings, lists and objects, and a string or list that does contain `'msg'` cannot be
   * indexed by it. An object is indexed only when it has the key.
   */
  predicate MsgLookupRaises(v: Value)
  {
    match v
    case Dict(_) => false
    case Str(s) => Occurs("msg", s)
    case List(items) => Str("msg") in items
    case _ => true
  }

  /**
   * The effect of running one callback on the telemetry and the parking session. A callback
   * that raises is caught by its caller and changes nothing after the point where it raised.
   */
  function ApplyCallback(cb: Callback, resp: Response, info: Info, park: Session): (r: (Info, Session))
    ensures cb.Opaque? ==> r == (info, park)
    ensures cb == StatusMerge && resp.result.Some? && resp.result.value.Dict? ==>
              r == (Update(info, resp.result.value.fields), park)
    ensures cb == StatusMerge && !(resp.result.Some? && resp.result.value.Dict?) ==> r == (info, park)
    ensures cb == ParkAck ==> r.0 == info
    // a refused start ends the run, unless logging its message raises first
    ensures cb == ParkAck && CodeNonZero(resp) && (resp.result.None? || !MsgLookupRaises(resp.result.value)) ==>
              r.1 == park.(inProgress := false)
    ensures cb == ParkAck && CodeNonZero(resp) && resp.result.Some? && MsgLookupRaises(resp.result.value) ==> r.1 == park
    // an accepted start reads the baseline count; a result without `.get` raises and changes nothing
    ensures cb == ParkAck && !CodeNonZero(resp) && resp.result.None? ==> r.1 == park.(last := Num(0))
    ensures cb == ParkAck && !CodeNonZero(resp) && resp.result.Some? && resp.result.value.Dict? ==>
              r.1 == park.(last := CountOf(resp.result.value.fields))
    ensures cb == ParkAck && !CodeNonZero(resp) && resp.result.Some? && !resp.result.value.Dict? ==> r.1 == park
    ensures r.1.error == park.error && r.1.index == park.index && (r.1.inProgress ==> park.inProgress)
    ensures Consistent(park) ==> Consistent(r.1)
  {
    match cb
    case Opaque(_) => (info, park)
    case StatusMerge =>
      if resp.result.Some? && resp.result.value.Dict? then (Update(info, resp.result.value.fields), park)
      else (info, park)
    case ParkAck =>
      if CodeNonZero(resp) then
        if resp.result.Some? && MsgLookupRaises(resp.result.value) then (info, park)
        else (info, park.(inProgress := false))
      else if resp.result.None? then (info, park.(last := Num(0)))
      else if resp.result.value.Dict? then (info, park.(last := CountOf(resp.result.value.fields)))
      else (info, park)
  }

  /** A refused `start_feed_assist` ends the run but leaves the error flag as it was: nothing marks the park as failed. */
  lemma RefusedStartIsNotAnError(resp: Response, info: Info, park: Session)
    requires CodeNonZero(resp) && resp.result.None? && park.inProgress && !park.error
    ensures var (_, p) := ApplyCallback(ParkAck, resp, info, park);
            !p.inProgress && !p.error
  {
  }

  /**
   * A refused start whose result is text mentioning "msg" leaves the park running: the lookup
   * `result['msg']` raises before the flag is cleared. An object result with or without a `msg`
   * key does end the run.
   */
  lemma MsgTextKeepsPark(code: Value, info: Info, park: Session, fields: map<string, Value>)
    requires code != Num(0)
    ensures ApplyCallback(ParkAck, Response(None, Some(code), Some(Str("bad msg")), None), info, park).1 == park
    ensures ApplyCallback(ParkAck, Response(None, Some(code), Some(Str("busy")), None), info, park).1 ==
              park.(inProgress := false)
    ensures ApplyCallback(ParkAck, Response(None, Some(code), Some(Dict(fields)), None), info, park).1 ==
              park.(inProgress := false)
  {
    assert OccursAt("msg", "bad msg", 4);
    forall i ensures !OccursAt("msg", "busy", i) {
      if 0 <= i <= 1 {
        assert "busy"[i..i + 3][0] != 'm';
      }
    }
  }

  /** The callbacks of the shed backlog, each called once, in queue order, with the overflow error. */
  function ShedInvocations(tasks: seq<Task>): (r: seq<Invocation>)
    ensures |r| == |tasks|
    ensures forall i :: 0 <= i < |tasks| ==> r[i] == Invocation(tasks[i].callback, Overflow)
  {
    if tasks == [] then [] else [Invocation(tasks[0].callback, Overflow)] + ShedInvocations(tasks[1..])
  }

  /** The state after calling the shed callbacks one by one. */
  function Shed(tasks: seq<Task>, info: Info, park: Session): (Info, Session)
  {
    if tasks == [] then (info, park)
    else
      var (i1, p1) := ApplyCallback(tasks[0].callback, Overflow, info, park);
      Shed(tasks[1..], i1, p1)
  }

  /** One step of the shedding loop. */
  lemma ShedStep(tasks: seq<Task>, info: Info, park: Session, logged: seq<Invocation>)
    requires tasks != []
    ensures var (i1, p1) := ApplyCallback(tasks[0].callback, Overflow, info, park);
            Shed(tasks, info, park) == Shed(tasks[1..], i1, p1)
    ensures logged + ShedInvocations(tasks) == (logged + [Invocation(tasks[0].callback, Overflow)]) + ShedInvocations(tasks[1..])
  {
  }

  predicate HasParkAck(tasks: seq<Task>)
  {
    exists i :: 0 <= i < |tasks| && tasks[i].callback == ParkAck
  }

  /**
   * Shedding the backlog leaves the telemetry and the parking flags alone; the only trace it
   * leaves is the baseline count, reset to 0 when a shed `start_feed_assist` acknowledgement runs.
   */
  lemma {:induction false} ShedEffect(tasks: seq<Task>, info: Info, park: Session)
    ensures Shed(tasks, info, park) == (info, if HasParkAck(tasks) then park.(last := Num(0)) else park)
  {
    if tasks != [] {
      var (i1, p1) := ApplyCallback(tasks[0].callback, Overflow, info, park);
      ShedEffect(tasks[1..], i1, p1);
      if tasks[0].callback == ParkAck {
        assert p1 == park.(last := Num(0));
        if HasParkAck(tasks[1..]) {
          var i :| 0 <= i < |tasks[1..]| && tasks[1..][i].callback == ParkAck;
        }
      } else {
        assert p1 == park && i1 == info;
        if HasParkAck(tasks) {
          var i :| 0 <= i < |tasks| && tasks[i].callback == ParkAck;
          assert tasks[1..][i - 1].callback == ParkAck;
        }
        if HasParkAck(tasks[1..]) {
          var i :| 0 <= i < |tasks[1..]| && tasks[1..][i].callback == ParkAck;
          assert tasks[i + 1].callback == ParkAck;
        }
      }
    }
  }
}
