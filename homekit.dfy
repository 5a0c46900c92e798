/**
 * The `HomeKit` object: its settings, read once from the configuration
 * with defaults, and the description table `metricsDesc` that
 * `getAllDeviceMetrics` grows from one poll to the next.
 */
module Exporter {
  import opened Wrappers
  import opened Text
  import opened Config
  import opened Normalizer
  import opened NormalizerFacts

  /**
   * The setting at `section.name`: present when the document is a mapping
   * whose `section` is a mapping holding `name`, else `default`.
   */
  function Setting(confData: Yaml, section: string, name: string, default: Yaml): (r: Yaml)
    ensures if confData.YMap? && section in confData.fields &&
               confData.fields[section].YMap? && name in confData.fields[section].fields
            then r == confData.fields[section].fields[name]
            else r == default
  {
    LookupPair(confData, Field(section), Field(name));
    match Lookup(confData, [Field(section), Field(name)])
    case Some(v) => v
    case None => default
  }

  class HomeKit {
    const host: Yaml
    const port: Yaml
    const pollTime: Yaml
    const temperature: Yaml
    /** The configured targets, `confData['devices']`, in order. */
    const devices: seq<string>
    /** Metric name to description; kept across calls. */
    var metricsDesc: map<string, string>

    /** `HomeKit.__init__`, given the already-parsed configuration file. */
    constructor (confData: Yaml, devices: seq<string>)
      ensures host == Setting(confData, "connection", "host", YStr("localhost"))
      ensures port == Setting(confData, "connection", "port", YNum(8423.0))
      ensures pollTime == Setting(confData, "settings", "poll", YNum(30.0))
      ensures temperature == Setting(confData, "settings", "temperature", YStr("F"))
      ensures this.devices == devices
      ensures metricsDesc == map[]
    {
      var h := GetNestedValue(confData, [Field("connection"), Field("host")], YStr("localhost"));
      var p := GetNestedValue(confData, [Field("connection"), Field("port")], YNum(8423.0));
      var t := GetNestedValue(confData, [Field("settings"), Field("poll")], YNum(30.0));
      var u := GetNestedValue(confData, [Field("settings"), Field("temperature")], YStr("F"));
      host, port, pollTime, temperature := h, p, t, u;
      this.devices := devices;
      metricsDesc := map[];
    }

    /**
     * `getAllDeviceMetrics`: `replies[i]` is what fetching `devices[i]` gave.
     * Returns the metrics of this poll, or the exception that ended it; in
     * both cases `metricsDesc` keeps every update made before that point.
     */
    method GetAllDeviceMetrics(replies: seq<Reply>) returns (outcome: Outcome)
      requires |replies| == |devices|
      modifies this
      ensures var q := Poll(Running(old(metricsDesc), map[]), devices, replies, temperature);
        metricsDesc == q.desc && outcome == Finish(q)
      ensures old(metricsDesc).Keys <= metricsDesc.Keys
      ensures forall k :: k in old(metricsDesc) && !ReachableIn(k, replies) ==> metricsDesc[k] == old(metricsDesc)[k]
      ensures outcome.Done? ==> outcome.metrics.Keys <= metricsDesc.Keys
      ensures outcome.Done? ==> forall k :: k in outcome.metrics <==> EmittedBy(k, replies)
    {
      ghost var start := Running(metricsDesc, map[]);
      PollKeepsDescriptions(start, devices, replies, temperature);
      PollMetricsDescribed(start, devices, replies, temperature);
      if Poll(start, devices, replies, temperature).Running? {
        PollMetricNames(start, devices, replies, temperature);
      }
      var metrics: map<string, Value> := map[];
      for i := 0 to |devices|
        invariant Poll(start, devices[..i], replies[..i], temperature) == Running(metricsDesc, metrics)
      {
        PollExtend(start, devices, replies, temperature, i);
        var device := devices[i];
        match replies[i]
        case ErrorReply(_) =>
          // the warning is printed and the next device is fetched
        case Malformed =>
          PollFailedStays(start, devices, replies, temperature, i + 1);
          return Raised(BadReply);
        case Record(name, room, kind, reachable, state) =>
          var base := BaseName(kind, room, name);
          metrics := metrics[ReachableName(base) := reachable];
          metricsDesc := metricsDesc[ReachableName(base) := ReachableDescription(device)];
          if state.None? {
            PollFailedStays(start, devices, replies, temperature, i + 1);
            return Raised(MissingState);
          }
          var stateMetrics, fault := AddStateMetrics(base, device, state.value, metrics);
          if fault.Some? {
            PollFailedStays(start, devices, replies, temperature, i + 1);
            return Raised(fault.value);
          }
          metrics := stateMetrics;
      }
      assert devices[..|devices|] == devices && replies[..|replies|] == replies;
      outcome := Done(metrics);
    }

    /**
     * The inner loop of `getAllDeviceMetrics` over one device's `state`
     * items: adds their metrics to `metrics0`, and their descriptions where
     * none exists yet, or stops at the exception raised converting one.
     */
    method AddStateMetrics(base: string, device: string, entries: seq<Entry>, metrics0: map<string, Value>)
      returns (metrics: map<string, Value>, fault: Option<Fault>)
      modifies this
      ensures var q := EntriesStep(Running(old(metricsDesc), metrics0), base, device, entries, temperature);
        metricsDesc == q.desc &&
        if q.Running? then fault == None && metrics == q.metrics else fault == Some(q.fault)
    {
      ghost var entered := Running(metricsDesc, metrics0);
      metrics := metrics0;
      for j := 0 to |entries|
        invariant EntriesStep(entered, base, device, entries[..j], temperature) == Running(metricsDesc, metrics)
      {
        EntriesExtend(entered, base, device, entries, temperature, j);
        var metric, value := entries[j].key, entries[j].value;
        if value.Str? {
          continue;
        }
        var m := MetricName(base, metric);
        if IsTemperatureKey(metric) {
          if !temperature.YStr? {
            EntriesFailedStays(entered, base, device, entries, temperature, j + 1);
            return metrics, Some(UnitNotText);
          }
          if Lower(temperature.s) == "f" {
            if value.Null? {
              EntriesFailedStays(entered, base, device, entries, temperature, j + 1);
              return metrics, Some(NotNumeric);
            }
            value := Num(ToFahrenheit(AsNumber(value)));
          }
        }
        metrics := metrics[m := value];
        if m !in metricsDesc {
          metricsDesc := metricsDesc[m := Description(metric, device)];
        }
      }
      assert entries[..|entries|] == entries;
      fault := None;
    }
  }
}
