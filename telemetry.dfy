/**
 * Device telemetry as `_handle_response` keeps it: `_info` is a JSON object whose top-level
 * keys are overwritten by each status result (`dict.update`), after a `dryer_status` object
 * has been copied onto the `dryer` key (extras/ace.py).
 */
module Telemetry {
  import opened Opt

  /** A decoded JSON value; `Other` stands for null, booleans and floating-point numbers. */
  datatype Value =
    | Num(n: int)
    | Str(s: string)
    | Dict(fields: map<string, Value>)
    | List(items: seq<Value>)
    | Other

  type Info = map<string, Value>

  const Ready: Value := Str("ready")

  /** `_info.update(result)`: keys of `result` overwrite, all other keys keep their values. */
  function Update(info: Info, result: map<string, Value>): (r: Info)
    ensures r.Keys == info.Keys + result.Keys
    ensures forall k :: k in result ==> r[k] == result[k]
    ensures forall k :: k in info && k !in result ==> r[k] == info[k]
  {
    info + result
  }

  /** The alias `_handle_response` adds before merging: an object under `dryer_status` is also stored under `dryer`. */
  function Normalise(result: map<string, Value>): (r: map<string, Value>)
    ensures "dryer_status" in result && result["dryer_status"].Dict? ==>
              r.Keys == result.Keys + {"dryer"} && r["dryer"] == result["dryer_status"]
    ensures forall k :: k in result && k != "dryer" ==> k in r && r[k] == result[k]
    ensures !("dryer_status" in result && result["dryer_status"].Dict?) ==> r == result
  {
    if "dryer_status" in result && result["dryer_status"].Dict? then result["dryer" := result["dryer_status"]]
    else result
  }

  /** After the merge, `dryer` holds the reported `dryer_status` object, and every other reported key its reported value. */
  lemma MergeNormalised(info: Info, result: map<string, Value>)
    ensures var r := Update(info, Normalise(result));
            && ("dryer_status" in result && result["dryer_status"].Dict? ==> r["dryer"] == result["dryer_status"])
            && (forall k :: k in result && k != "dryer" ==> r[k] == result[k])
            && (forall k :: k in info && k !in result && k != "dryer" ==> r[k] == info[k])
  {
  }

  /**
   * The status callback of `_request_status` merges the raw result first; the later merge of the
   * normalised result overwrites every key it wrote, so the first merge leaves no trace.
   */
  lemma {:induction false} MergeSubsumed(info: Info, result: map<string, Value>)
    ensures Update(Update(info, result), Normalise(result)) == Update(info, Normalise(result))
  {
    var n := Normalise(result);
    assert result.Keys <= n.Keys;
    var lhs, rhs := Update(Update(info, result), n), Update(info, n);
    assert lhs.Keys == rhs.Keys;
    forall k | k in lhs.Keys
      ensures lhs[k] == rhs[k]
    {
      if k !in n {
        assert k !in result;
      }
    }
  }

  /** Merging the same result twice changes nothing the first merge did not. */
  lemma UpdateIdempotent(info: Info, result: map<string, Value>)
    ensures Update(Update(info, result), result) == Update(info, result)
  {
    var lhs, rhs := Update(Update(info, result), result), Update(info, result);
    assert lhs.Keys == rhs.Keys;
  }

  /** One slot record of the default telemetry. */
  function DefaultSlot(i: int): Value
  {
    Dict(map["index" := Num(i), "status" := Str("empty"), "sku" := Str(""), "type" := Str(""),
             "color" := List([Num(0), Num(0), Num(0)])])
  }

  /** `_get_default_info`: what is known before the device has reported anything. */
  function DefaultInfo(): (r: Info)
    ensures "status" in r && r["status"] == Str("disconnected")
    ensures "feed_assist_count" in r && r["feed_assist_count"] == Num(0)
    ensures "slots" in r && r["slots"].List? && |r["slots"].items| == 4
  {
    map[
      "status" := Str("disconnected"),
      "model" := Str("Unknown"),
      "firmware" := Str("Unknown"),
      "boot_firmware" := Str("Unknown"),
      "dryer" := Dict(map["status" := Str("stop"), "target_temp" := Num(0), "duration" := Num(0), "remain_time" := Num(0)]),
      "temp" := Num(0),
      "enable_rfid" := Num(1),
      "fan_speed" := Num(7000),
      "feed_assist_count" := Num(0),
      "cont_assist_time" := Other,
      "slots" := List([DefaultSlot(0), DefaultSlot(1), DefaultSlot(2), DefaultSlot(3)])
    ]
  }

  /** Python indexing of a list: `-|s| <= i < 0` counts from the end; anything else raises IndexError. */
  function PyIndex<T>(s: seq<T>, i: int): (r: Option<T>)
    ensures -|s| <= i < |s| ==> r == Some(s[i % |s|])
    ensures r.None? <==> !(-|s| <= i < |s|)
  {
    if 0 <= i < |s| then Some(s[i])
    else if -|s| <= i < 0 then Some(s[|s| + i])
    else None
  }

  /**
   * `_info['slots'][i]['status']`; `None` when one of the lookups raises
   * (no `slots` list, index out of range, a slot that is not an object or has no `status`).
   */
  function SlotStatus(info: Info, i: int): (r: Option<Value>)
    ensures r.Some? <==>
              "slots" in info && info["slots"].List? && -|info["slots"].items| <= i < |info["slots"].items|
              && info["slots"].items[i % |info["slots"].items|].Dict?
              && "status" in info["slots"].items[i % |info["slots"].items|].fields
    ensures r.Some? ==> r.value == info["slots"].items[i % |info["slots"].items|].fields["status"]
  {
    if "slots" in info && info["slots"].List? then
      var slot := PyIndex(info["slots"].items, i);
      if slot.Some? && slot.value.Dict? && "status" in slot.value.fields then Some(slot.value.fields["status"])
      else None
    else None
  }

  /** Before the device reports, every slot reads as empty, so no command finds a slot ready. */
  lemma DefaultSlotsEmpty(i: int)
    requires 0 <= i < 4
    ensures SlotStatus(DefaultInfo(), i) == Some(Str("empty"))
    ensures SlotStatus(DefaultInfo(), i) != Some(Ready)
  {
    var items := DefaultInfo()["slots"].items;
    assert items[i] == DefaultSlot(i);
  }
}
