/**
 * What the normalizer promises: the shape of metric names, the unit
 * conversion, which entries are skipped, what a device contributes, and
 * how the description table evolves over a poll.
 */
module NormalizerFacts {
  import opened Wrappers
  import opened Text
  import opened Config
  import opened Normalizer

  // ---------------------------------------------------------------------
  // Metric names
  // ---------------------------------------------------------------------

  lemma LowerKeepsLowerCase(s: string)
    requires forall i :: 0 <= i < |s| ==> !IsUpper(s[i])
    ensures Lower(s) == s
  {
  }

  /** A literal piece of the name survives lower-casing and space removal unchanged. */
  lemma {:induction false} SquashLiteral(s: string)
    requires forall i :: 0 <= i < |s| ==> !IsUpper(s[i]) && s[i] != ' '
    ensures Squash(s) == s
  {
    LowerKeepsLowerCase(s);
    RemoveSpacesNoSpace(s);
  }

  lemma SquashSeparators()
    ensures Squash("homekit_") == "homekit_" && Squash("_") == "_"
  {
    SquashLiteral("homekit_");
    SquashLiteral("_");
  }

  lemma {:induction false} SquashAppend(a: string, b: string)
    ensures Squash(a + b) == Squash(a) + Squash(b)
  {
    LowerAppend(a, b);
    RemoveSpacesAppend(Lower(a), Lower(b));
  }

  /**
   * The base name is `f'homekit_{type}_{room}_{name}'.lower().replace(" ", "")`:
   * normalizing the parts one by one is normalizing the whole formatted name.
   */
  lemma BaseNameFormat(kind: string, room: string, name: string)
    ensures BaseName(kind, room, name) == Squash("homekit_" + kind + "_" + room + "_" + name)
  {
    SquashSeparators();
    var a := "homekit_" + kind;
    var b := a + "_";
    var c := b + room;
    var d := c + "_";
    SquashAppend("homekit_", kind);
    SquashAppend(a, "_");
    SquashAppend(b, room);
    SquashAppend(c, "_");
    SquashAppend(d, name);
  }

  /** A space between two words of a name disappears; the words are joined. */
  lemma SquashDropsSpace(a: string, b: string)
    ensures Squash(a + " " + b) == Squash(a) + Squash(b)
  {
    SquashAppend(a + " ", b);
    SquashAppend(a, " ");
    SquashSpace();
  }

  lemma SquashSpace()
    ensures Squash(" ") == []
  {
    assert Lower(" ") == " ";
    assert RemoveSpaces(" ") == RemoveSpaces([]);
  }

  /**
   * Parts without capitals or spaces appear verbatim, punctuation included:
   * type `light`, room `kitchen` and name `kitchen-light` give
   * `homekit_light_kitchen_kitchen-light`.
   */
  lemma BaseNameOfPlainParts(kind: string, room: string, name: string)
    requires forall i :: 0 <= i < |kind| ==> !IsUpper(kind[i]) && kind[i] != ' '
    requires forall i :: 0 <= i < |room| ==> !IsUpper(room[i]) && room[i] != ' '
    requires forall i :: 0 <= i < |name| ==> !IsUpper(name[i]) && name[i] != ' '
    ensures BaseName(kind, room, name) == "homekit_" + kind + "_" + room + "_" + name
  {

    SquashLiteral(kind);
    SquashLiteral(room);
    SquashLiteral(name);
  }

  /** The reachable metric and a state metric share a name only for a state key `reachable`. */
  lemma ReachableNameClash(base: string, key: string)
    ensures MetricName(base, key) == ReachableName(base) <==> key == "reachable"
  {
  }

  // ---------------------------------------------------------------------
  // Temperature conversion
  // ---------------------------------------------------------------------

  /** A key with `temperature` anywhere in it, in any letter case, is a temperature key. */
  lemma TemperatureKeyFromWindow(before: string, w: string, after: string)
    requires Lower(w) == "temperature"
    ensures IsTemperatureKey(before + w + after)
  {
    LowerAppend(before + w, after);
    LowerAppend(before, w);
    var s := Lower(before + w + after);
    assert s == Lower(before) + "temperature" + Lower(after);
    assert s[|before|..|before| + |"temperature"|] == "temperature";
    ContainsAt(s, "temperature", |before|);
  }

  /** Conversely, every temperature key holds `temperature` in some letter case. */
  lemma TemperatureKeyWindow(key: string) returns (i: nat)
    requires IsTemperatureKey(key)
    ensures i + |"temperature"| <= |key|
    ensures Lower(key[i..i + |"temperature"|]) == "temperature"
  {
    i := ContainsWitness(Lower(key), "temperature");
    var w := key[i..i + |"temperature"|];
    assert forall t :: 0 <= t < |w| ==> Lower(w)[t] == Lower(key)[i + t];
    assert Lower(w) == Lower(key)[i..i + |"temperature"|];
  }

  lemma CurrentTemperatureIsTemperatureKey()
    ensures IsTemperatureKey("currentTemperature")
  {
    assert Lower("Temperature") == "temperature" by {
      LowerAppend("T", "emperature");
      LowerKeepsLowerCase("emperature");
      assert Lower("T") == [LowerChar('T')];
    }
    TemperatureKeyFromWindow("current", "Temperature", "");
    assert "current" + "Temperature" + "" == "currentTemperature";
  }

  lemma BrightnessIsNotTemperatureKey()
    ensures !IsTemperatureKey("brightness")
  {
  }

  /** Twenty degrees Celsius becomes sixty-eight under `F`, and stays twenty under `C`. */
  lemma ConvertExample()
    ensures Convert("currentTemperature", Num(20.0), YStr("F")) == Success(Num(68.0))
    ensures Convert("currentTemperature", Num(20.0), YStr("C")) == Success(Num(20.0))
    ensures Convert("brightness", Num(80.0), YStr("F")) == Success(Num(80.0))
  {
    CurrentTemperatureIsTemperatureKey();
    BrightnessIsNotTemperatureKey();
  }

  // ---------------------------------------------------------------------
  // State entries
  // ---------------------------------------------------------------------

  /** The entries whose values are not strings, in order. */
  function NonStrings(es: seq<Entry>): (r: seq<Entry>)
    ensures forall e :: e in r <==> e in es && !e.value.Str?
    decreases |es|
  {
    if es == [] then []
    else
      var n := |es| - 1;
      assert es == es[..n] + [es[n]];
      var init := NonStrings(es[..n]);
      if es[n].value.Str? then init else init + [es[n]]
  }

  /** Filtering distributes over concatenation, so the kept entries keep their order. */
  lemma {:induction false} NonStringsAppend(a: seq<Entry>, b: seq<Entry>)
    ensures NonStrings(a + b) == NonStrings(a) + NonStrings(b)
    decreases |b|
  {
    if b == [] {
      assert a + b == a;
    } else {
      var n := |b| - 1;
      assert (a + b)[..|a + b| - 1] == a + b[..n] && (a + b)[|a + b| - 1] == b[n];
      NonStringsAppend(a, b[..n]);
    }
  }

  /** String-valued entries add no metric and no description: dropping them changes nothing. */
  lemma {:induction false} EntriesSkipStrings(p: Progress, base: string, device: string, es: seq<Entry>, unit: Yaml)
    ensures EntriesStep(p, base, device, es, unit) == EntriesStep(p, base, device, NonStrings(es), unit)
    decreases |es|
  {
    if es != [] {
      var n := |es| - 1;
      EntriesSkipStrings(p, base, device, es[..n], unit);
      var rest := NonStrings(es[..n]);
      if !es[n].value.Str? {
        assert (rest + [es[n]])[..|rest|] == rest;
      }
    }
  }

  /** `k` is the name of a metric that some non-string entry of `es` writes. */
  ghost predicate Emits(k: string, base: string, es: seq<Entry>)
  {
    exists j :: 0 <= j < |es| && !es[j].value.Str? && k == MetricName(base, es[j].key)
  }

  /** One entry step, on the name it writes: the converted value, and a description kept or added. */
  lemma EntryWrites(p: Progress, base: string, device: string, e: Entry, unit: Yaml)
    requires EntryStep(p, base, device, e, unit).Running? && !e.value.Str?
    ensures var q := EntryStep(p, base, device, e, unit);
      var m := MetricName(base, e.key);
      var c := Convert(e.key, e.value, unit);
      p.Running? && c.Success? && m in q.metrics && q.metrics[m] == c.value &&
      m in q.desc && q.desc[m] == (if m in p.desc then p.desc[m] else Description(e.key, device))
  {
  }

  /** One entry step leaves every name it does not write alone. */
  lemma EntryFrame(p: Progress, base: string, device: string, e: Entry, unit: Yaml, k: string)
    requires e.value.Str? || k != MetricName(base, e.key)
    ensures var q := EntryStep(p, base, device, e, unit);
      (k in q.desc <==> k in p.desc) &&
      (q.Running? ==> p.Running? && (k in q.metrics <==> k in p.metrics) &&
                      (k in p.metrics ==> q.metrics[k] == p.metrics[k]))
  {
  }

  /** Names that no entry writes keep their metric and description. */
  lemma {:induction false} EntriesFrame(p: Progress, base: string, device: string, es: seq<Entry>, unit: Yaml, k: string)
    requires !Emits(k, base, es)
    ensures var q := EntriesStep(p, base, device, es, unit);
      (k in q.desc <==> k in p.desc) &&
      (q.Running? ==> p.Running? && (k in q.metrics <==> k in p.metrics) &&
                      (k in p.metrics ==> q.metrics[k] == p.metrics[k]))
    decreases |es|
  {
    if es != [] {
      var n := |es| - 1;
      assert forall j :: 0 <= j < n ==> es[..n][j] == es[j];
      EntriesFrame(p, base, device, es[..n], unit, k);
      var mid := EntriesStep(p, base, device, es[..n], unit);
      assert EntriesStep(p, base, device, es, unit) == EntryStep(mid, base, device, es[n], unit);
      EntryFrame(mid, base, device, es[n], unit, k);
    }
  }

  /**
   * When the inner loop does not raise, the metric names afterwards are
   * exactly those before plus one per non-string entry.
   */
  lemma {:induction false} EntriesMetricNames(p: Progress, base: string, device: string, es: seq<Entry>, unit: Yaml)
    requires EntriesStep(p, base, device, es, unit).Running?
    ensures var q := EntriesStep(p, base, device, es, unit);
      p.Running? && forall k :: k in q.metrics <==> k in p.metrics || Emits(k, base, es)
    decreases |es|
  {
    if es != [] {
      var n := |es| - 1;
      EntriesMetricNames(p, base, device, es[..n], unit);
      forall k
        ensures Emits(k, base, es) <==>
          Emits(k, base, es[..n]) || (!es[n].value.Str? && k == MetricName(base, es[n].key))
      {
        if Emits(k, base, es) {
          var j :| 0 <= j < |es| && !es[j].value.Str? && k == MetricName(base, es[j].key);
          if j < n {
            assert es[..n][j] == es[j];
          }
        }
        if Emits(k, base, es[..n]) {
          var j :| 0 <= j < n && !es[..n][j].value.Str? && k == MetricName(base, es[..n][j].key);
          assert es[..n][j] == es[j];
        }
      }
    }
  }

  /** No two entries share a key, as in a decoded JSON object. */
  ghost predicate DistinctKeys(es: seq<Entry>)
  {
    forall a, b :: 0 <= a < b < |es| ==> es[a].key != es[b].key
  }

  /**
   * After the inner loop, each non-string entry's metric holds its converted
   * value, and its description is the one already in the table, or else the
   * capitalized key for this device.
   */
  lemma {:induction false} EntriesEmit(p: Progress, base: string, device: string, es: seq<Entry>, unit: Yaml, j: nat)
    requires DistinctKeys(es)
    requires j < |es| && !es[j].value.Str?
    requires EntriesStep(p, base, device, es, unit).Running?
    ensures var q := EntriesStep(p, base, device, es, unit);
      var m := MetricName(base, es[j].key);
      var c := Convert(es[j].key, es[j].value, unit);
      c.Success? && m in q.metrics && q.metrics[m] == c.value &&
      m in q.desc && q.desc[m] == (if m in p.desc then p.desc[m] else Description(es[j].key, device))
    decreases |es|
  {
    var n := |es| - 1;
    var init := es[..n];
    var mid := EntriesStep(p, base, device, init, unit);
    var m := MetricName(base, es[j].key);
    assert EntriesStep(p, base, device, es, unit) == EntryStep(mid, base, device, es[n], unit);
    if j == n {
      forall i | 0 <= i < n
        ensures init[i].value.Str? || MetricName(base, init[i].key) != m
      {
        assert init[i] == es[i];
      }
      EntriesFrame(p, base, device, init, unit, m);
      EntryWrites(mid, base, device, es[n], unit);
    } else {
      assert init[j] == es[j];
      assert DistinctKeys(init) by {
        assert forall a :: 0 <= a < n ==> init[a] == es[a];
      }
      EntriesEmit(p, base, device, init, unit, j);
      assert es[j].key != es[n].key;
      EntryFrame(mid, base, device, es[n], unit, m);
    }
  }

  /** Once the inner loop has raised, the remaining entries change nothing. */
  lemma {:induction false} EntriesFailedStays(p: Progress, base: string, device: string, es: seq<Entry>, unit: Yaml, k: nat)
    requires k <= |es|
    requires EntriesStep(p, base, device, es[..k], unit).Failed?
    ensures EntriesStep(p, base, device, es, unit) == EntriesStep(p, base, device, es[..k], unit)
    decreases |es| - k
  {
    if k < |es| {
      var n := |es| - 1;
      assert es[..n][..k] == es[..k];
      EntriesFailedStays(p, base, device, es[..n], unit, k);
    } else {
      assert es[..k] == es;
    }
  }

  /** Every metric the inner loop writes has a description. */
  lemma {:induction false} EntriesMetricsDescribed(p: Progress, base: string, device: string, es: seq<Entry>, unit: Yaml)
    requires p.Running? ==> p.metrics.Keys <= p.desc.Keys
    ensures var q := EntriesStep(p, base, device, es, unit);
      q.Running? ==> q.metrics.Keys <= q.desc.Keys
    decreases |es|
  {
    if es != [] {
      EntriesMetricsDescribed(p, base, device, es[..|es| - 1], unit);
    }
  }

  // ---------------------------------------------------------------------
  // One device
  // ---------------------------------------------------------------------

  /**
   * A device record always (re)writes its reachable description, even when the
   * call then raises; a record without `state` raises right after that.
   */
  lemma DeviceDescribesReachable(p: Progress, device: string, reply: Reply, unit: Yaml)
    requires p.Running? && reply.Record?
    ensures var q := DeviceStep(p, device, reply, unit);
      var r := ReachableName(BaseName(reply.kind, reply.room, reply.name));
      r in q.desc && q.desc[r] == ReachableDescription(device) &&
      (reply.state.None? ==> q == Failed(p.desc[r := ReachableDescription(device)], MissingState))
  {
  }

  /**
   * A device whose state has no non-string `reachable` key, and whose step
   * does not raise, reports its raw `reachable` value.
   */
  lemma DeviceReportsReachable(p: Progress, device: string, reply: Reply, unit: Yaml)
    requires p.Running? && reply.Record? && reply.state.Some?
    requires forall e :: e in reply.state.value && !e.value.Str? ==> e.key != "reachable"
    requires DeviceStep(p, device, reply, unit).Running?
    ensures var q := DeviceStep(p, device, reply, unit);
      var r := ReachableName(BaseName(reply.kind, reply.room, reply.name));
      r in q.metrics && q.metrics[r] == reply.reachable
  {
    var base := BaseName(reply.kind, reply.room, reply.name);
    var r := ReachableName(base);
    var es := reply.state.value;
    var entered := Running(p.desc[r := ReachableDescription(device)], p.metrics[r := reply.reachable]);
    forall j | 0 <= j < |es| && !es[j].value.Str?
      ensures MetricName(base, es[j].key) != r
    {
      ReachableNameClash(base, es[j].key);
      assert es[j] in es;
    }
    EntriesFrame(entered, base, device, es, unit, r);
  }

  /** A device step overwrites at most one existing description: its own reachable one. */
  lemma DeviceKeepsDescriptions(p: Progress, device: string, reply: Reply, unit: Yaml)
    ensures var q := DeviceStep(p, device, reply, unit);
      p.desc.Keys <= q.desc.Keys &&
      forall k :: k in p.desc && !(reply.Record? && k == ReachableName(BaseName(reply.kind, reply.room, reply.name)))
        ==> q.desc[k] == p.desc[k]
  {
    if p.Running? && reply.Record? && reply.state.Some? {
      var base := BaseName(reply.kind, reply.room, reply.name);
      var r := ReachableName(base);
      var start := Running(p.desc[r := ReachableDescription(device)], p.metrics[r := reply.reachable]);
      assert DeviceStep(p, device, reply, unit) == EntriesStep(start, base, device, reply.state.value, unit);
    }
  }

  // ---------------------------------------------------------------------
  // A whole poll
  // ---------------------------------------------------------------------

  /** The outer loop extended by one device. */
  lemma PollExtend(p: Progress, devices: seq<string>, replies: seq<Reply>, unit: Yaml, i: nat)
    requires |devices| == |replies| && i < |devices|
    ensures Poll(p, devices[..i + 1], replies[..i + 1], unit) ==
            DeviceStep(Poll(p, devices[..i], replies[..i], unit), devices[i], replies[i], unit)
  {
    assert devices[..i + 1][..i] == devices[..i] && replies[..i + 1][..i] == replies[..i];
  }

  /** The inner loop extended by one entry. */
  lemma EntriesExtend(p: Progress, base: string, device: string, es: seq<Entry>, unit: Yaml, j: nat)
    requires j < |es|
    ensures EntriesStep(p, base, device, es[..j + 1], unit) ==
            EntryStep(EntriesStep(p, base, device, es[..j], unit), base, device, es[j], unit)
  {
    assert es[..j + 1][..j] == es[..j];
  }

  /** Once the outer loop has raised, the remaining devices change nothing. */
  lemma PollFailedStays(p: Progress, devices: seq<string>, replies: seq<Reply>, unit: Yaml, k: nat)
    requires |devices| == |replies| && k <= |devices|
    requires Poll(p, devices[..k], replies[..k], unit).Failed?
    ensures Poll(p, devices, replies, unit) == Poll(p, devices[..k], replies[..k], unit)
  {
    assert devices == devices[..k] + devices[k..] && replies == replies[..k] + replies[k..];
    PollAppend(p, devices[..k], devices[k..], replies[..k], replies[k..], unit);
  }

  /** A poll ending in one more device is one more device step. */
  lemma PollSnoc(p: Progress, devices: seq<string>, device: string, replies: seq<Reply>, reply: Reply, unit: Yaml)
    requires |devices| == |replies|
    ensures Poll(p, devices + [device], replies + [reply], unit) ==
            DeviceStep(Poll(p, devices, replies, unit), device, reply, unit)
  {
    assert (devices + [device])[..|devices|] == devices;
    assert (replies + [reply])[..|replies|] == replies;
  }

  /** Polling two lists of devices in a row is polling the first, then the second from there. */
  lemma {:induction false} PollAppend(p: Progress, devices1: seq<string>, devices2: seq<string>,
                                      replies1: seq<Reply>, replies2: seq<Reply>, unit: Yaml)
    requires |devices1| == |replies1| && |devices2| == |replies2|
    ensures Poll(p, devices1 + devices2, replies1 + replies2, unit) ==
            Poll(Poll(p, devices1, replies1, unit), devices2, replies2, unit)
    decreases |devices2|
  {
    if devices2 == [] {
      assert devices1 + devices2 == devices1 && replies1 + replies2 == replies1;
    } else {
      var n := |devices2| - 1;
      var ds, d, rs, r := devices2[..n], devices2[n], replies2[..n], replies2[n];
      assert devices2 == ds + [d] && replies2 == rs + [r];
      assert devices1 + devices2 == (devices1 + ds) + [d] && replies1 + replies2 == (replies1 + rs) + [r];
      PollAppend(p, devices1, ds, replies1, rs, unit);
      PollSnoc(p, devices1 + ds, d, replies1 + rs, r, unit);
      PollSnoc(Poll(p, devices1, replies1, unit), ds, d, rs, r, unit);
    }
  }

  /** A device whose fetch failed contributes nothing, wherever it stands in the list. */
  lemma PollSkipsErrorReply(p: Progress, devices1: seq<string>, device: string, devices2: seq<string>,
                            replies1: seq<Reply>, error: string, replies2: seq<Reply>, unit: Yaml)
    requires |devices1| == |replies1| && |devices2| == |replies2|
    ensures Poll(p, devices1 + [device] + devices2, replies1 + [ErrorReply(error)] + replies2, unit) ==
            Poll(p, devices1 + devices2, replies1 + replies2, unit)
  {
    var mid := Poll(p, devices1, replies1, unit);
    PollAppend(p, devices1 + [device], devices2, replies1 + [ErrorReply(error)], replies2, unit);
    PollAppend(p, devices1, [device], replies1, [ErrorReply(error)], unit);
    assert Poll(mid, [device], [ErrorReply(error)], unit) == DeviceStep(mid, device, ErrorReply(error), unit);
    PollAppend(p, devices1, devices2, replies1, replies2, unit);
  }

  /** `k` is the reachable metric name of some device record among the replies. */
  ghost predicate ReachableIn(k: string, replies: seq<Reply>)
  {
    exists i :: 0 <= i < |replies| && replies[i].Record? &&
      k == ReachableName(BaseName(replies[i].kind, replies[i].room, replies[i].name))
  }

  lemma ReachableInPrefix(k: string, replies: seq<Reply>, n: nat)
    requires n <= |replies| && ReachableIn(k, replies[..n])
    ensures ReachableIn(k, replies)
  {
    var i :| 0 <= i < n && replies[..n][i].Record? &&
      k == ReachableName(BaseName(replies[..n][i].kind, replies[..n][i].room, replies[..n][i].name));
    assert replies[..n][i] == replies[i];
  }

  /**
   * The description table never loses a key, and an existing description
   * changes only when it is the reachable metric of a device record polled.
   */
  lemma {:induction false} PollKeepsDescriptions(p: Progress, devices: seq<string>, replies: seq<Reply>, unit: Yaml)
    requires |devices| == |replies|
    ensures var q := Poll(p, devices, replies, unit);
      p.desc.Keys <= q.desc.Keys &&
      forall k :: k in p.desc && !ReachableIn(k, replies) ==> q.desc[k] == p.desc[k]
    decreases |devices|
  {
    if devices != [] {
      var n := |devices| - 1;
      PollKeepsDescriptions(p, devices[..n], replies[..n], unit);
      var mid := Poll(p, devices[..n], replies[..n], unit);
      DeviceKeepsDescriptions(mid, devices[n], replies[n], unit);
      forall k | k in p.desc && !ReachableIn(k, replies)
        ensures Poll(p, devices, replies, unit).desc[k] == p.desc[k]
      {
        if ReachableIn(k, replies[..n]) {
          ReachableInPrefix(k, replies, n);
        }
        var reply := replies[n];
        assert !(reply.Record? && k == ReachableName(BaseName(reply.kind, reply.room, reply.name)));
      }
    }
  }

  /** A device step that returns leaves every metric described. */
  lemma DeviceMetricsDescribed(p: Progress, device: string, reply: Reply, unit: Yaml)
    requires p.Running? ==> p.metrics.Keys <= p.desc.Keys
    ensures var q := DeviceStep(p, device, reply, unit);
      q.Running? ==> q.metrics.Keys <= q.desc.Keys
  {
    if p.Running? && reply.Record? && reply.state.Some? {
      var base := BaseName(reply.kind, reply.room, reply.name);
      var r := ReachableName(base);
      var entered := Running(p.desc[r := ReachableDescription(device)], p.metrics[r := reply.reachable]);
      EntriesMetricsDescribed(entered, base, device, reply.state.value, unit);
    }
  }

  /** After a poll that returns, every returned metric has a description. */
  lemma {:induction false} PollMetricsDescribed(p: Progress, devices: seq<string>, replies: seq<Reply>, unit: Yaml)
    requires |devices| == |replies|
    requires p.Running? ==> p.metrics.Keys <= p.desc.Keys
    ensures var q := Poll(p, devices, replies, unit);
      q.Running? ==> q.metrics.Keys <= q.desc.Keys
    decreases |devices|
  {
    if devices != [] {
      var n := |devices| - 1;
      PollMetricsDescribed(p, devices[..n], replies[..n], unit);
      var mid := Poll(p, devices[..n], replies[..n], unit);
      assert Poll(p, devices, replies, unit) == DeviceStep(mid, devices[n], replies[n], unit);
      DeviceMetricsDescribed(mid, devices[n], replies[n], unit);
    }
  }

  /** The metric names a device reply contributes: its reachable metric and one per non-string entry. */
  ghost predicate DeviceEmits(k: string, reply: Reply)
  {
    reply.Record? && reply.state.Some? &&
    var base := BaseName(reply.kind, reply.room, reply.name);
    (k == ReachableName(base) || Emits(k, base, reply.state.value))
  }

  /** `k` is contributed by some reply among `replies`. */
  ghost predicate EmittedBy(k: string, replies: seq<Reply>)
  {
    exists i :: 0 <= i < |replies| && DeviceEmits(k, replies[i])
  }

  lemma EmittedBySnoc(k: string, replies: seq<Reply>)
    requires replies != []
    ensures EmittedBy(k, replies) <==>
      EmittedBy(k, replies[..|replies| - 1]) || DeviceEmits(k, replies[|replies| - 1])
  {
    var n := |replies| - 1;
    assert forall i :: 0 <= i < n ==> replies[..n][i] == replies[i];
  }

  /** One device that does not raise adds exactly the metric names it contributes. */
  lemma DeviceMetricNames(p: Progress, device: string, reply: Reply, unit: Yaml)
    requires DeviceStep(p, device, reply, unit).Running?
    ensures var q := DeviceStep(p, device, reply, unit);
      p.Running? && forall k :: k in q.metrics <==> k in p.metrics || DeviceEmits(k, reply)
  {
    if reply.Record? {
      var base := BaseName(reply.kind, reply.room, reply.name);
      var r := ReachableName(base);
      var entered := Running(p.desc[r := ReachableDescription(device)], p.metrics[r := reply.reachable]);
      EntriesMetricNames(entered, base, device, reply.state.value, unit);
    }
  }

  /**
   * When a poll returns, its metric names are exactly the reachable metric
   * of every device record and one metric per non-string state entry.
   */
  lemma {:induction false} PollMetricNames(p: Progress, devices: seq<string>, replies: seq<Reply>, unit: Yaml)
    requires |devices| == |replies|
    requires Poll(p, devices, replies, unit).Running?
    ensures var q := Poll(p, devices, replies, unit);
      p.Running? && forall k :: k in q.metrics <==> k in p.metrics || EmittedBy(k, replies)
    decreases |devices|
  {
    if devices != [] {
      var n := |devices| - 1;
      PollMetricNames(p, devices[..n], replies[..n], unit);
      DeviceMetricNames(Poll(p, devices[..n], replies[..n], unit), devices[n], replies[n], unit);
      forall k {
        EmittedBySnoc(k, replies);
      }
    }
  }

  /** A device that does not raise leaves alone the metric of every name it does not contribute. */
  lemma DeviceFrame(p: Progress, device: string, reply: Reply, unit: Yaml, k: string)
    requires DeviceStep(p, device, reply, unit).Running?
    requires !DeviceEmits(k, reply)
    ensures var q := DeviceStep(p, device, reply, unit);
      p.Running? && (k in q.metrics <==> k in p.metrics) &&
      (k in p.metrics ==> q.metrics[k] == p.metrics[k])
  {
    if reply.Record? {
      var base := BaseName(reply.kind, reply.room, reply.name);
      var r := ReachableName(base);
      var entered := Running(p.desc[r := ReachableDescription(device)], p.metrics[r := reply.reachable]);
      EntriesFrame(entered, base, device, reply.state.value, unit, k);
    }
  }

  /** A poll that does not raise leaves alone the metric of every name no reply contributes. */
  lemma {:induction false} PollFrame(p: Progress, devices: seq<string>, replies: seq<Reply>, unit: Yaml, k: string)
    requires |devices| == |replies|
    requires Poll(p, devices, replies, unit).Running?
    requires !EmittedBy(k, replies)
    ensures var q := Poll(p, devices, replies, unit);
      p.Running? && (k in q.metrics <==> k in p.metrics) &&
      (k in p.metrics ==> q.metrics[k] == p.metrics[k])
    decreases |devices|
  {
    if devices != [] {
      var n := |devices| - 1;
      EmittedBySnoc(k, replies);
      var mid := Poll(p, devices[..n], replies[..n], unit);
      assert Poll(p, devices, replies, unit) == DeviceStep(mid, devices[n], replies[n], unit);
      PollFrame(p, devices[..n], replies[..n], unit, k);
      DeviceFrame(mid, devices[n], replies[n], unit, k);
    }
  }

  /** A sequence is its elements before `i`, the one at `i` and those after. */
  lemma SplitAt<T>(s: seq<T>, i: nat)
    requires i < |s|
    ensures s == s[..i] + [s[i]] + s[i + 1..]
  {
  }

  /** A poll over `ds`, one more device and `rest` passes through that device's step. */
  lemma PollSplit(p: Progress, ds: seq<string>, d: string, rest: seq<string>,
                  rs: seq<Reply>, r: Reply, rrest: seq<Reply>, unit: Yaml)
    requires |ds| == |rs| && |rest| == |rrest|
    ensures Poll(p, ds + [d] + rest, rs + [r] + rrest, unit) ==
            Poll(DeviceStep(Poll(p, ds, rs, unit), d, r, unit), rest, rrest, unit)
    ensures Poll(p, ds + [d] + rest, rs + [r] + rrest, unit).Running? ==>
            Poll(p, ds, rs, unit).Running? && DeviceStep(Poll(p, ds, rs, unit), d, r, unit).Running?
  {
    PollAppend(p, ds + [d], rest, rs + [r], rrest, unit);
    PollSnoc(p, ds, d, rs, r, unit);
  }

  /**
   * In a poll that returns, device `i`'s step is followed by the steps of
   * the later devices: the split the two lemmas below reason about.
   */
  lemma PollAround(p: Progress, devices: seq<string>, replies: seq<Reply>, unit: Yaml, i: nat)
    requires |devices| == |replies| && i < |replies|
    requires Poll(p, devices, replies, unit).Running?
    ensures var before := Poll(p, devices[..i], replies[..i], unit);
      var after := DeviceStep(before, devices[i], replies[i], unit);
      before.Running? && after.Running? &&
      Poll(p, devices, replies, unit) == Poll(after, devices[i + 1..], replies[i + 1..], unit)
  {
    SplitAt(devices, i);
    SplitAt(replies, i);
    PollSplit(p, devices[..i], devices[i], devices[i + 1..], replies[..i], replies[i], replies[i + 1..], unit);
  }

  /**
   * Every device record in a poll that returns puts its raw `reachable`
   * value into the result, unless a non-string `reachable` state key of its
   * own, or a later reply, writes that name.
   */
  lemma PollReportsReachable(p: Progress, devices: seq<string>, replies: seq<Reply>, unit: Yaml, i: nat)
    requires |devices| == |replies| && i < |replies| && replies[i].Record?
    requires Poll(p, devices, replies, unit).Running?
    requires replies[i].state.Some? ==>
      forall e :: e in replies[i].state.value && !e.value.Str? ==> e.key != "reachable"
    requires !EmittedBy(ReachableName(BaseName(replies[i].kind, replies[i].room, replies[i].name)), replies[i + 1..])
    ensures var q := Poll(p, devices, replies, unit);
      var r := ReachableName(BaseName(replies[i].kind, replies[i].room, replies[i].name));
      r in q.metrics && q.metrics[r] == replies[i].reachable
  {
    var r := ReachableName(BaseName(replies[i].kind, replies[i].room, replies[i].name));
    PollAround(p, devices, replies, unit, i);
    var before := Poll(p, devices[..i], replies[..i], unit);
    var after := DeviceStep(before, devices[i], replies[i], unit);
    DeviceReportsReachable(before, devices[i], replies[i], unit);
    PollFrame(after, devices[i + 1..], replies[i + 1..], unit, r);
  }

  /**
   * Every non-string state entry of a device record in a poll that returns
   * puts its converted value into the result, unless a later reply writes
   * that name.
   */
  lemma PollReportsState(p: Progress, devices: seq<string>, replies: seq<Reply>, unit: Yaml, i: nat, j: nat)
    requires |devices| == |replies| && i < |replies|
    requires replies[i].Record? && replies[i].state.Some? && DistinctKeys(replies[i].state.value)
    requires j < |replies[i].state.value| && !replies[i].state.value[j].value.Str?
    requires Poll(p, devices, replies, unit).Running?
    requires !EmittedBy(MetricName(BaseName(replies[i].kind, replies[i].room, replies[i].name),
                                   replies[i].state.value[j].key), replies[i + 1..])
    ensures var q := Poll(p, devices, replies, unit);
      var e := replies[i].state.value[j];
      var m := MetricName(BaseName(replies[i].kind, replies[i].room, replies[i].name), e.key);
      var c := Convert(e.key, e.value, unit);
      c.Success? && m in q.metrics && q.metrics[m] == c.value
  {
    var reply := replies[i];
    var base := BaseName(reply.kind, reply.room, reply.name);
    var m := MetricName(base, reply.state.value[j].key);
    PollAround(p, devices, replies, unit, i);
    var before := Poll(p, devices[..i], replies[..i], unit);
    var after := DeviceStep(before, devices[i], reply, unit);
    var r := ReachableName(base);
    var entered := Running(before.desc[r := ReachableDescription(devices[i])], before.metrics[r := reply.reachable]);
    assert after == EntriesStep(entered, base, devices[i], reply.state.value, unit);
    EntriesEmit(entered, base, devices[i], reply.state.value, unit, j);
    PollFrame(after, devices[i + 1..], replies[i + 1..], unit, m);
  }

  /**
   * After a poll that returns, each record's reachable description is the
   * one naming its configured device, rewritten by this poll, unless a later
   * record has the same reachable name.
   */
  lemma PollDescribesReachable(p: Progress, devices: seq<string>, replies: seq<Reply>, unit: Yaml, i: nat)
    requires |devices| == |replies| && i < |replies| && replies[i].Record?
    requires Poll(p, devices, replies, unit).Running?
    requires !ReachableIn(ReachableName(BaseName(replies[i].kind, replies[i].room, replies[i].name)), replies[i + 1..])
    ensures var q := Poll(p, devices, replies, unit);
      var r := ReachableName(BaseName(replies[i].kind, replies[i].room, replies[i].name));
      r in q.desc && q.desc[r] == ReachableDescription(devices[i])
  {
    PollAround(p, devices, replies, unit, i);
    var before := Poll(p, devices[..i], replies[..i], unit);
    var after := DeviceStep(before, devices[i], replies[i], unit);
    DeviceDescribesReachable(before, devices[i], replies[i], unit);
    PollKeepsDescriptions(after, devices[i + 1..], replies[i + 1..], unit);
  }

  /** What the inner loop returns or raises does not depend on the description table. */
  lemma {:induction false} EntriesIgnoreDescriptions(p1: Progress, p2: Progress, base: string, device: string, es: seq<Entry>, unit: Yaml)
    requires Finish(p1) == Finish(p2)
    ensures Finish(EntriesStep(p1, base, device, es, unit)) == Finish(EntriesStep(p2, base, device, es, unit))
    decreases |es|
  {
    if es != [] {
      EntriesIgnoreDescriptions(p1, p2, base, device, es[..|es| - 1], unit);
    }
  }

  /**
   * Metric names and values of a poll do not depend on the descriptions
   * recorded by earlier polls: the same replies give the same result.
   */
  lemma {:induction false} PollIgnoresDescriptions(desc1: map<string, string>, desc2: map<string, string>,
                                                   devices: seq<string>, replies: seq<Reply>, unit: Yaml)
    requires |devices| == |replies|
    ensures Finish(Poll(Running(desc1, map[]), devices, replies, unit)) ==
            Finish(Poll(Running(desc2, map[]), devices, replies, unit))
    decreases |devices|
  {
    if devices != [] {
      var n := |devices| - 1;
      PollIgnoresDescriptions(desc1, desc2, devices[..n], replies[..n], unit);
      var mid1 := Poll(Running(desc1, map[]), devices[..n], replies[..n], unit);
      var mid2 := Poll(Running(desc2, map[]), devices[..n], replies[..n], unit);
      assert Poll(Running(desc1, map[]), devices, replies, unit) == DeviceStep(mid1, devices[n], replies[n], unit);
      assert Poll(Running(desc2, map[]), devices, replies, unit) == DeviceStep(mid2, devices[n], replies[n], unit);
      if mid1.Running? && replies[n].Record? && replies[n].state.Some? {
        var reply := replies[n];
        var base := BaseName(reply.kind, reply.room, reply.name);
        var r := ReachableName(base);
        EntriesIgnoreDescriptions(
          Running(mid1.desc[r := ReachableDescription(devices[n])], mid1.metrics[r := reply.reachable]),
          Running(mid2.desc[r := ReachableDescription(devices[n])], mid2.metrics[r := reply.reachable]),
          base, devices[n], reply.state.value, unit);
      }
    }
  }
}
