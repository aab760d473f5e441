/**
 * The `ValgAce` object of extras/ace.py: the bounded request queue, the callback map, the
 * request-id counter, the telemetry and the parking session, updated in place by the writer
 * tick, the response handler and the parking operations. Times are integer milliseconds,
 * supplied by the caller in place of the reactor clock.
 */
module Ace {
  import opened Opt
  import opened Telemetry
  import opened Parking
  import opened Dispatcher

  /** The token of the `lambda r: None` callback `_complete_parking` registers. */
  const NoopToken: nat := 0

  /** Status-poll cadence: every 0.2 s while a park runs, every 1.0 s otherwise. */
  const FastPoll: int := 200
  const SlowPoll: int := 1000

  datatype ParkOutcome = Busy | SlotLookupFailed | SlotNotReady | Started

  class ValgAce {
    const maxQueueSize: int
    const parkHitCount: int
    const disableAssistAfterToolchange: bool

    var connected: bool
    var queue: seq<Task>
    var callbackMap: map<int, Callback>
    var requestId: int
    var lastStatusRequest: int
    var info: Info
    var park: Session
    var feedAssistIndex: int
    /** The requests written to the serial port, oldest first. */
    var sent: seq<Request>
    /** Every callback invocation with the response it was given, oldest first. */
    ghost var invoked: seq<Invocation>
    /** Re-check dwells scheduled by the parking supervisor that have not fired yet. */
    ghost var pendingRechecks: nat

    /** How many tasks the queue can hold; a `queue.Queue` with `maxsize <= 0` is unbounded, but every send then sheds. */
    function Capacity(): int
    {
      if maxQueueSize <= 0 then 1 else maxQueueSize
    }

    ghost predicate Valid()
      reads this
    {
      && 0 <= requestId < IdLimit
      && |queue| <= Capacity()
      && Consistent(park)
      && pendingRechecks == (if park.dwellScheduled then 1 else 0)
    }

    /** The queue after `send_request` puts `t`: a full queue is emptied first. */
    function Enqueue(q: seq<Task>, t: Task): (r: seq<Task>)
      ensures |r| <= Capacity() || |r| == |q| + 1
      ensures |q| <= Capacity() ==> |r| <= Capacity()
      ensures |r| >= 1 && r[|r| - 1] == t
      ensures |q| < maxQueueSize ==> r == q + [t]
      ensures |q| >= maxQueueSize ==> r == [t]
    {
      (if |q| >= maxQueueSize then [] else q) + [t]
    }

    /** The callbacks `send_request` runs on the queue `q` it finds: all of them when it is full, none otherwise. */
    function ShedLog(q: seq<Task>): seq<Invocation>
    {
      if |q| >= maxQueueSize then ShedInvocations(q) else []
    }

    /** The session after `send_request` sheds `q`: a shed acknowledgement of `start_feed_assist` resets the baseline count. */
    function AfterShed(q: seq<Task>, p: Session): Session
    {
      if |q| >= maxQueueSize && HasParkAck(q) then p.(last := Num(0)) else p
    }

    function PollInterval(): int
      reads this
    {
      if park.inProgress then FastPoll else SlowPoll
    }

    constructor (maxQueueSize: int, parkHitCount: int, disableAssistAfterToolchange: bool)
      ensures Valid()
      ensures this.maxQueueSize == maxQueueSize && this.parkHitCount == parkHitCount
      ensures this.disableAssistAfterToolchange == disableAssistAfterToolchange
      ensures !connected && queue == [] && callbackMap == map[] && requestId == 0 && lastStatusRequest == 0
      ensures info == DefaultInfo() && park == InitialSession() && feedAssistIndex == -1 && sent == [] && invoked == []
    {
      this.maxQueueSize := maxQueueSize;
      this.parkHitCount := parkHitCount;
      this.disableAssistAfterToolchange := disableAssistAfterToolchange;
      connected := false;
      queue := [];
      callbackMap := map[];
      requestId := 0;
      lastStatusRequest := 0;
      info := DefaultInfo();
      park := InitialSession();
      feedAssistIndex := -1;
      sent := [];
      invoked := [];
      pendingRechecks := 0;
    }

    /** The bookkeeping of a successful `_connect`: the link is up and the device status reads `ready`. */
    method MarkConnected()
      modifies this`connected, this`info
      ensures connected && info == old(info)["status" := Ready]
    {
      connected := true;
      info := info["status" := Ready];
    }

    /** The bookkeeping of `_disconnect`. */
    method MarkDisconnected()
      modifies this`connected
      ensures !connected
    {
      connected := false;
    }

    /** `_get_next_request_id`. */
    method NextRequestId() returns (id: int)
      requires Valid()
      modifies this`requestId
      ensures Valid()
      ensures requestId == NextId(old(requestId)) && id == requestId
    {
      requestId := requestId + 1;
      if requestId >= IdLimit {
        requestId := 0;
      }
      id := requestId;
    }

    /** Runs one callback; the log records it. */
    method InvokeCallback(cb: Callback, resp: Response)
      requires Valid()
      modifies this`info, this`park, this`invoked
      ensures (info, park) == ApplyCallback(cb, resp, old(info), old(park))
      ensures invoked == old(invoked) + [Invocation(cb, resp)]
      ensures park.dwellScheduled == old(park.dwellScheduled) && park.index == old(park.index)
      ensures Valid()
    {
      var (i, p) := ApplyCallback(cb, resp, info, park);
      info, park := i, p;
      invoked := invoked + [Invocation(cb, resp)];
    }

    /** The overflow branch of `send_request`: every waiting callback is called once, in queue order, with the overflow error. */
    method ShedQueue()
      requires Valid()
      modifies this`queue, this`info, this`park, this`invoked
      ensures Valid() && queue == []
      ensures invoked == old(invoked) + ShedInvocations(old(queue))
      ensures (info, park) == Shed(old(queue), old(info), old(park))
      ensures info == old(info) && park == (if HasParkAck(old(queue)) then old(park).(last := Num(0)) else old(park))
    {
      ghost var backlog := queue;
      while queue != []
        invariant Shed(backlog, old(info), old(park)) == Shed(queue, info, park)
        invariant old(invoked) + ShedInvocations(backlog) == invoked + ShedInvocations(queue)
        invariant Valid()
        invariant park.dwellScheduled == old(park.dwellScheduled)
        decreases |queue|
      {
        var task := queue[0];
        ShedStep(queue, info, park, invoked);
        queue := queue[1..];
        InvokeCallback(task.callback, Overflow);
      }
      ShedEffect(backlog, old(info), old(park));
    }

    /**
     * `send_request`: a full queue is shed first; the request then gets a fresh id, whatever id
     * it carried, and joins the queue.
     */
    method SendRequest(request: Request, cb: Callback)
      requires Valid()
      modifies this`queue, this`requestId, this`info, this`park, this`invoked
      ensures Valid()
      ensures requestId == NextId(old(requestId))
      ensures queue == Enqueue(old(queue), Task(request.(id := requestId), cb))
      ensures |old(queue)| >= maxQueueSize ==>
                invoked == old(invoked) + ShedInvocations(old(queue))
                && (info, park) == Shed(old(queue), old(info), old(park))
      ensures |old(queue)| < maxQueueSize ==> invoked == old(invoked) && info == old(info) && park == old(park)
      ensures invoked == old(invoked) + ShedLog(old(queue)) && info == old(info) && park == AfterShed(old(queue), old(park))
    {
      if |queue| >= maxQueueSize {
        ShedQueue();
      }
      var id := NextRequestId();
      queue := queue + [Task(request.(id := id), cb)];
    }

    /** `_request_status`: once the poll interval has passed, a `get_status` request with the merging callback. */
    method RequestStatus(now: int) returns (polled: bool)
      requires Valid()
      modifies this`queue, this`requestId, this`info, this`park, this`invoked, this`lastStatusRequest
      ensures Valid()
      ensures polled == (now - old(lastStatusRequest) > old(PollInterval()))
      ensures !polled ==> queue == old(queue) && requestId == old(requestId) && park == old(park)
                          && invoked == old(invoked) && lastStatusRequest == old(lastStatusRequest)
      ensures polled ==> lastStatusRequest == now
      // the id drawn for the request literal is overwritten by `send_request`: two ids per poll
      ensures polled ==> requestId == NextId(NextId(old(requestId)))
                         && queue == Enqueue(old(queue), Task(Request(requestId, GetStatus), StatusMerge))
                         && invoked == old(invoked) + ShedLog(old(queue)) && park == AfterShed(old(queue), old(park))
      ensures info == old(info)
    {
      polled := now - lastStatusRequest > PollInterval();
      if polled {
        var literalId := NextRequestId();
        SendRequest(Request(literalId, GetStatus), StatusMerge);
        lastStatusRequest := now;
      }
    }

    /** The dequeue half of `_writer_loop`: one task leaves the queue, its callback is registered under its id, and it is written or put back at the tail. */
    method DispatchOne(sendOk: bool)
      requires Valid()
      modifies this`queue, this`callbackMap, this`sent
      ensures Valid()
      ensures old(queue) == [] ==> queue == [] && callbackMap == old(callbackMap) && sent == old(sent)
      ensures old(queue) != [] ==>
                callbackMap == old(callbackMap)[old(queue)[0].request.id := old(queue)[0].callback]
      ensures old(queue) != [] && sendOk ==> queue == old(queue)[1..] && sent == old(sent) + [old(queue)[0].request]
      ensures old(queue) != [] && !sendOk ==> queue == old(queue)[1..] + [old(queue)[0]] && sent == old(sent)
    {
      if queue != [] {
        var task := queue[0];
        queue := queue[1..];
        callbackMap := callbackMap[task.request.id := task.callback];
        if sendOk {
          sent := sent + [task.request];
        } else {
          queue := queue + [task];
        }
      }
    }

    /** `_writer_loop` at clock `now`; `sendOk` is whether writing the packet succeeds. */
    method WriterTick(now: int, sendOk: bool)
      requires Valid()
      modifies this`queue, this`requestId, this`info, this`park, this`invoked, this`lastStatusRequest,
               this`callbackMap, this`sent
      ensures Valid()
      ensures !old(connected) ==>
                queue == old(queue) && requestId == old(requestId) && park == old(park) && invoked == old(invoked)
                && lastStatusRequest == old(lastStatusRequest) && callbackMap == old(callbackMap) && sent == old(sent)
      ensures old(connected) ==>
                var polled := now - old(lastStatusRequest) > old(PollInterval());
                var q := if polled then Enqueue(old(queue), Task(Request(NextId(NextId(old(requestId))), GetStatus), StatusMerge))
                         else old(queue);
                && (polled ==> lastStatusRequest == now && requestId == NextId(NextId(old(requestId))))
                && (polled ==> invoked == old(invoked) + ShedLog(old(queue)) && park == AfterShed(old(queue), old(park)))
                && (!polled ==> lastStatusRequest == old(lastStatusRequest) && requestId == old(requestId))
                && (!polled ==> invoked == old(invoked) && park == old(park))
                && (q == [] ==> queue == [] && callbackMap == old(callbackMap) && sent == old(sent))
                && (q != [] ==> callbackMap == old(callbackMap)[q[0].request.id := q[0].callback])
                && (q != [] && sendOk ==> queue == q[1..] && sent == old(sent) + [q[0].request])
                && (q != [] && !sendOk ==> queue == q[1..] + [q[0]] && sent == old(sent))
      ensures info == old(info)
    {
      if !connected {
        return;
      }
      if now - lastStatusRequest > PollInterval() {
        var _ := RequestStatus(now);
        lastStatusRequest := now;
      }
      DispatchOne(sendOk);
    }

    /** The first part of `_handle_response`: the callback registered under the response id is removed, then run. */
    method DispatchCallback(resp: Response)
      requires Valid()
      modifies this`callbackMap, this`info, this`park, this`invoked
      ensures Valid()
      ensures resp.id.Some? ==> callbackMap == old(callbackMap) - {resp.id.value}
      ensures resp.id.None? ==> callbackMap == old(callbackMap)
      ensures resp.id.Some? && resp.id.value in old(callbackMap) ==>
                (info, park) == ApplyCallback(old(callbackMap)[resp.id.value], resp, old(info), old(park))
                && invoked == old(invoked) + [Invocation(old(callbackMap)[resp.id.value], resp)]
      ensures !(resp.id.Some? && resp.id.value in old(callbackMap)) ==>
                info == old(info) && park == old(park) && invoked == old(invoked)
    {
      if resp.id.Some? {
        var id := resp.id.value;
        if id in callbackMap {
          var cb := callbackMap[id];
          callbackMap := callbackMap - {id};
          InvokeCallback(cb, resp);
        } else {
          callbackMap := callbackMap - {id};
        }
      }
    }

    /** `_complete_parking`: stop feed assist on the parked slot and end the session cleanly. */
    method CompleteParking()
      requires Valid()
      modifies this`queue, this`requestId, this`info, this`park, this`invoked, this`feedAssistIndex
      ensures Valid()
      ensures !old(park.inProgress) ==>
                queue == old(queue) && requestId == old(requestId) && park == old(park)
                && invoked == old(invoked) && feedAssistIndex == old(feedAssistIndex)
      ensures old(park.inProgress) ==>
                && requestId == NextId(old(requestId))
                && queue == Enqueue(old(queue), Task(Request(requestId, StopFeedAssist(old(park.index))), Opaque(NoopToken)))
                && park == Finish(AfterShed(old(queue), old(park)))
                && invoked == old(invoked) + ShedLog(old(queue))
                && feedAssistIndex == (if disableAssistAfterToolchange then -1 else old(feedAssistIndex))
      ensures info == old(info)
    {
      if !park.inProgress {
        return;
      }
      SendRequest(Request(0, StopFeedAssist(park.index)), Opaque(NoopToken));
      park := Finish(park);
      if disableAssistAfterToolchange {
        feedAssistIndex := -1;
      }
    }

    /**
     * The state after the supervisor has checked `result` against the session `p0`, from the queue
     * `q0`, id counter `id0`, callback log `log0` and feed-assist slot `f0`: the session as the
     * monitor leaves it and nothing else changed, or, on completion, the stop request queued and
     * the session finished.
     */
    ghost predicate Supervised(p0: Session, q0: seq<Task>, id0: int, log0: seq<Invocation>, f0: int,
                               result: map<string, Value>, now: int)
      reads this
    {
      var (s, a) := Monitor(p0, StatusOf(result), CountOf(result), now, parkHitCount);
      && (!a.Complete? ==> park == s && queue == q0 && requestId == id0 && invoked == log0 && feedAssistIndex == f0)
      && (a.Complete? ==>
            && park == Finish(AfterShed(q0, s))
            && requestId == NextId(id0)
            && queue == Enqueue(q0, Task(Request(NextId(id0), StopFeedAssist(a.index)), Opaque(NoopToken)))
            && invoked == log0 + ShedLog(q0)
            && feedAssistIndex == (if disableAssistAfterToolchange then -1 else f0))
    }

    /** The parking branch of `_handle_response` for the merged status `result`. */
    method SuperviseParking(result: map<string, Value>, now: int)
      requires Valid() && park.inProgress
      modifies this`queue, this`requestId, this`info, this`park, this`invoked, this`feedAssistIndex, this`pendingRechecks
      ensures Valid()
      ensures Supervised(old(park), old(queue), old(requestId), old(invoked), old(feedAssistIndex), result, now)
      ensures var (s, a) := Monitor(old(park), StatusOf(result), CountOf(result), now, parkHitCount);
              && (a == ScheduleRecheck ==> pendingRechecks == 1)
              && (a.Complete? ==> !park.inProgress && !park.error && park.index == -1)
      ensures info == old(info)
    {
      var (s, action) := Monitor(park, StatusOf(result), CountOf(result), now, parkHitCount);
      park := s;
      if action == ScheduleRecheck {
        pendingRechecks := pendingRechecks + 1;
      }
      if action.Complete? {
        CompleteParking();
      }
    }

    /**
     * `_handle_response`: the matching callback is removed and run, then an object result is merged
     * into the telemetry (with the `dryer` alias) and, while a park runs, checked by the supervisor.
     */
    method HandleResponse(resp: Response, now: int)
      requires Valid()
      modifies this`callbackMap, this`queue, this`requestId, this`info, this`park, this`invoked,
               this`feedAssistIndex, this`pendingRechecks
      ensures Valid()
      ensures resp.id.Some? ==> resp.id.value !in callbackMap && callbackMap == old(callbackMap) - {resp.id.value}
      ensures resp.id.None? ==> callbackMap == old(callbackMap)
      ensures var hit := resp.id.Some? && resp.id.value in old(callbackMap);
              var (i1, p1) := if hit then ApplyCallback(old(callbackMap)[resp.id.value], resp, old(info), old(park))
                              else (old(info), old(park));
              var called := if hit then [Invocation(old(callbackMap)[resp.id.value], resp)] else [];
              var isObject := resp.result.Some? && resp.result.value.Dict?;
              && (!isObject ==> info == i1 && park == p1 && queue == old(queue) && invoked == old(invoked) + called
                                && requestId == old(requestId) && feedAssistIndex == old(feedAssistIndex))
              && (isObject ==> info == Update(i1, Normalise(resp.result.value.fields)))
              && (isObject && !p1.inProgress ==> park == p1 && queue == old(queue) && invoked == old(invoked) + called
                                                 && requestId == old(requestId) && feedAssistIndex == old(feedAssistIndex))
              && (isObject && p1.inProgress ==>
                    Supervised(p1, old(queue), old(requestId), old(invoked) + called, old(feedAssistIndex),
                               Normalise(resp.result.value.fields), now))
    {
      ghost var hit := resp.id.Some? && resp.id.value in callbackMap;
      ghost var called := if hit then [Invocation(callbackMap[resp.id.value], resp)] else [];
      ghost var after := if hit then ApplyCallback(callbackMap[resp.id.value], resp, info, park) else (info, park);
      DispatchCallback(resp);
      assert invoked == old(invoked) + called && (info, park) == after;
      assert queue == old(queue) && requestId == old(requestId) && feedAssistIndex == old(feedAssistIndex);
      if resp.result.Some? && resp.result.value.Dict? {
        var result := Normalise(resp.result.value.fields);
        info := Update(info, result);
        if park.inProgress {
          SuperviseParking(result, now);
        }
      }
    }

    /** `_park_to_toolhead`: the session flags are set first, then `start_feed_assist` is queued with the acknowledgement callback. */
    method ParkToToolhead(index: int, now: int)
      requires Valid()
      modifies this`queue, this`requestId, this`info, this`park, this`invoked
      ensures Valid()
      ensures park == AfterShed(old(queue), Start(old(park), index, now))
      ensures invoked == old(invoked) + ShedLog(old(queue))
      ensures requestId == NextId(old(requestId))
      ensures queue == Enqueue(old(queue), Task(Request(requestId, StartFeedAssist(index)), ParkAck))
      ensures info == old(info)
    {
      park := Start(park, index, now);
      SendRequest(Request(0, StartFeedAssist(index)), ParkAck);
    }

    /** `cmd_ACE_PARK_TO_TOOLHEAD` for slot `index` (0..3, checked by the G-code parser). */
    method ParkCommand(index: int, now: int) returns (outcome: ParkOutcome)
      requires Valid() && 0 <= index <= 3
      modifies this`queue, this`requestId, this`info, this`park, this`invoked
      ensures Valid()
      ensures outcome == Busy <==> old(park.inProgress)
      ensures outcome == Started <==> !old(park.inProgress) && SlotStatus(old(info), index) == Some(Ready)
      ensures outcome == SlotLookupFailed <==> !old(park.inProgress) && SlotStatus(old(info), index).None?
      ensures outcome != Started ==>
                queue == old(queue) && requestId == old(requestId) && park == old(park) && invoked == old(invoked)
      ensures outcome == Started ==>
                park == AfterShed(old(queue), Start(old(park), index, now))
                && requestId == NextId(old(requestId))
                && invoked == old(invoked) + ShedLog(old(queue))
                && queue == Enqueue(old(queue), Task(Request(requestId, StartFeedAssist(index)), ParkAck))
      ensures info == old(info)
    {
      if park.inProgress {
        return Busy;
      }
      var status := SlotStatus(info, index);
      if status.None? {
        return SlotLookupFailed;
      }
      if status.value != Ready {
        // `_ACE_ON_EMPTY_ERROR INDEX=index` runs
        return SlotNotReady;
      }
      ParkToToolhead(index, now);
      return Started;
    }

    /** The 0.7 s re-check dwell fires: its only effect is clearing `_dwell_scheduled`. */
    method RecheckFired()
      requires Valid() && pendingRechecks > 0
      modifies this`park, this`pendingRechecks
      ensures Valid()
      ensures park == old(park).(dwellScheduled := false) && pendingRechecks == 0
    {
      park := park.(dwellScheduled := false);
      pendingRechecks := 0;
    }

    /** The timeout branch of the infinity-spool parking monitor: the run is stopped and marked failed. */
    method AbortParking()
      requires Valid()
      modifies this`park
      ensures Valid()
      ensures park == old(park).(inProgress := false, error := true)
    {
      park := park.(inProgress := false, error := true);
    }
  }
}
