/**
 * The device-record normalizer of `HomeKit.getAllDeviceMetrics`, as pure
 * functions: how one state entry, one device reply and a whole poll turn
 * the bridge's replies into metric values and descriptions.
 *
 * A poll threads a Progress through the devices: the description table
 * (which outlives the poll) and the metrics gathered so far, or, once
 * Python would have raised, the description table as it stood at that
 * moment and the reason.
 */
module Normalizer {
  import opened Wrappers
  import opened Text
  import opened Config

  /** A decoded JSON state value. */
  datatype Value = Num(n: real) | Bool(b: bool) | Str(s: string) | Null

  /** One `key: value` pair of a device's `state` object, in the object's order. */
  datatype Entry = Entry(key: string, value: Value)

  /** What `getDeviceInfo` hands back for one configured device. */
  datatype Reply =
    // an object with an `error` key, skipped with a warning: the `{'error': err}`
    // built when the request fails, or such an object sent by the bridge
    | ErrorReply(error: string)
    // an object without `error` holding `name`, `room`, `reachable` and `type`;
    // `state` is None when it has no `state` key or one that is not an object
    | Record(name: string, room: string, kind: string, reachable: Value, state: Option<seq<Entry>>)
    // every other body, each of which raises before the reachable metric is
    // written: not JSON at all; a number, boolean or null (`'error' in` raises);
    // a string or array containing `error` (`jsonOut['error']` raises); a string
    // or array without it, or an object lacking one of the four keys
    | Malformed

  /** Why the poll raised instead of returning. */
  datatype Fault =
    | BadReply      // KeyError/TypeError reading `name`, `room`, `reachable` or `type`
    | MissingState  // KeyError on `jsonOut['state']`, or AttributeError on its `.items()`
    | UnitNotText   // AttributeError on `self.temperature.lower()`
    | NotNumeric    // TypeError on `value * 9/5` (a null state value)

  datatype Progress =
    | Running(desc: map<string, string>, metrics: map<string, Value>)
    | Failed(desc: map<string, string>, fault: Fault)

  /** What one call returns: the metric map, or the exception it raised. */
  datatype Outcome = Done(metrics: map<string, Value>) | Raised(fault: Fault)

  function Finish(p: Progress): Outcome
  {
    match p
    case Running(_, metrics) => Done(metrics)
    case Failed(_, fault) => Raised(fault)
  }

  /** One part of a metric name normalized: lower-cased, spaces removed. */
  function Squash(s: string): (r: string)
    ensures ' ' !in r
    ensures forall c :: c in r ==> !IsUpper(c)
  {
    var lowered := Lower(s);
    RemoveSpacesKeepsOthers(lowered);
    assert forall c :: c in lowered ==> !IsUpper(c);
    RemoveSpaces(lowered)
  }

  /**
   * `f'homekit_{type}_{room}_{name}'.lower().replace(" ", "")`, part by part:
   * `homekit_`, then type, room and name each normalized, joined by `_`.
   */
  function BaseName(kind: string, room: string, name: string): (r: string)
    ensures ' ' !in r
    ensures forall c :: c in r ==> !IsUpper(c)
  {
    var prefix := "homekit_";
    assert forall i :: 0 <= i < |prefix| ==> 'a' <= prefix[i] <= 'z' || prefix[i] == '_';
    prefix + Squash(kind) + "_" + Squash(room) + "_" + Squash(name)
  }

  /** `f'{metricsStr}_reachable'`: the state-metric name of a key `reachable`. */
  function ReachableName(base: string): (r: string)
    ensures r == MetricName(base, "reachable")
  {
    base + "_reachable"
  }

  /** `f'{metricsStr}_{metric}'`: the base, one `_`, then the state key verbatim. */
  function MetricName(base: string, key: string): (r: string)
    ensures |r| == |base| + 1 + |key|
    ensures r[..|base|] == base && r[|base|] == '_' && r[|base| + 1..] == key
  {
    base + "_" + key
  }

  /** The reachable metric's description ends with the configured device. */
  function ReachableDescription(device: string): (r: string)
    ensures |device| <= |r| && r[|r| - |device|..] == device
  {
    "Reachable metric for device " + device
  }

  /** A state metric's description: the capitalized key first, the configured device last. */
  function Description(key: string, device: string): (r: string)
    ensures |key| + |device| <= |r|
    ensures r[..|key|] == Capitalize(key) && r[|r| - |device|..] == device
  {
    Capitalize(key) + " metric for device " + device
  }

  /** `'temperature' in metric.lower()`. */
  function IsTemperatureKey(key: string): (b: bool)
    ensures b ==> |"temperature"| <= |key|
  {
    Contains(Lower(key), "temperature")
  }

  /**
   * `self.temperature.lower() == 'f'`: None where the setting is not a string
   * (`.lower()` raises), else whether it is `f` or `F`.
   */
  function IsFahrenheit(unit: Yaml): (r: Option<bool>)
    ensures r.Some? <==> unit.YStr?
    ensures r == Some(true) <==> unit.YStr? && (unit.s == "f" || unit.s == "F")
  {
    match unit
    case YStr(s) => Some(Lower(s) == "f")
    case _ => None
  }

  /** Python arithmetic treats True as 1 and False as 0. */
  function AsNumber(v: Value): (r: real)
    requires v.Num? || v.Bool?
    ensures v.Num? ==> r == v.n
    ensures v.Bool? ==> (r == 1.0 <==> v.b) && (r == 0.0 <==> !v.b)
  {
    match v
    case Num(x) => x
    case Bool(b) => if b then 1.0 else 0.0
  }

  /** `(value * 9/5) + 32`, in exact arithmetic. */
  function ToFahrenheit(celsius: real): (f: real)
    ensures (f - 32.0) * 5.0 / 9.0 == celsius
  {
    celsius * 9.0 / 5.0 + 32.0
  }

  /** The value stored for a non-string state entry, or the fault raised computing it. */
  function Convert(key: string, v: Value, unit: Yaml): (r: Result<Value, Fault>)
    requires !v.Str?
    ensures !IsTemperatureKey(key) ==> r == Success(v)
    ensures IsTemperatureKey(key) && !unit.YStr? ==> r == Failure(UnitNotText)
    ensures IsTemperatureKey(key) && IsFahrenheit(unit) == Some(false) ==> r == Success(v)
    ensures IsTemperatureKey(key) && IsFahrenheit(unit) == Some(true) ==>
      if v.Null? then r == Failure(NotNumeric)
      else r.Success? && r.value.Num? && (r.value.n - 32.0) * 5.0 / 9.0 == AsNumber(v)
  {
    if !IsTemperatureKey(key) then Success(v)
    else match IsFahrenheit(unit)
      case None => Failure(UnitNotText)
      case Some(false) => Success(v)
      case Some(true) => if v.Null? then Failure(NotNumeric) else Success(Num(ToFahrenheit(AsNumber(v))))
  }

  /** One pass of the inner loop over `jsonOut['state'].items()`. */
  function EntryStep(p: Progress, base: string, device: string, e: Entry, unit: Yaml): (q: Progress)
    ensures p.Failed? ==> q == p
    ensures p.desc.Keys <= q.desc.Keys
    ensures forall k :: k in p.desc ==> q.desc[k] == p.desc[k]
  {
    match p
    case Failed(_, _) => p
    case Running(desc, metrics) =>
      if e.value.Str? then p
      else match Convert(e.key, e.value, unit)
        case Failure(f) => Failed(desc, f)
        case Success(w) =>
          var m := MetricName(base, e.key);
          Running(if m in desc then desc else desc[m := Description(e.key, device)], metrics[m := w])
  }

  /** The inner loop over the first |es| state entries. */
  function EntriesStep(p: Progress, base: string, device: string, es: seq<Entry>, unit: Yaml): (q: Progress)
    ensures p.Failed? ==> q == p
    ensures p.desc.Keys <= q.desc.Keys
    ensures forall k :: k in p.desc ==> q.desc[k] == p.desc[k]
    decreases |es|
  {
    if es == [] then p
    else EntryStep(EntriesStep(p, base, device, es[..|es| - 1], unit), base, device, es[|es| - 1], unit)
  }

  /** One pass of the outer loop, for configured device `device` whose fetch gave `reply`. */
  function DeviceStep(p: Progress, device: string, reply: Reply, unit: Yaml): (q: Progress)
    ensures p.Failed? ==> q == p
  {
    match p
    case Failed(_, _) => p
    case Running(desc, metrics) =>
      match reply
      case ErrorReply(_) => p
      case Malformed => Failed(desc, BadReply)
      case Record(name, room, kind, reachable, state) =>
        var base := BaseName(kind, room, name);
        var r := ReachableName(base);
        var desc' := desc[r := ReachableDescription(device)];
        match state
        case None => Failed(desc', MissingState)
        case Some(es) => EntriesStep(Running(desc', metrics[r := reachable]), base, device, es, unit)
  }

  /** The outer loop over the first |devices| configured devices. */
  function Poll(p: Progress, devices: seq<string>, replies: seq<Reply>, unit: Yaml): (q: Progress)
    requires |devices| == |replies|
    ensures p.Failed? ==> q == p
    decreases |devices|
  {
    if devices == [] then p
    else
      var n := |devices| - 1;
      DeviceStep(Poll(p, devices[..n], replies[..n], unit), devices[n], replies[n], unit)
  }
}
