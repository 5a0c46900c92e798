# homekit_exporter — a Dafny model of the metric normalizer

homekit_exporter is a Prometheus exporter for HomeKit accessories. It reads a
YAML configuration (bridge host and port, poll interval, temperature unit and
the list of devices), asks the bridge for each configured device's record,
and turns every record into flat metrics: one `<base>_reachable` metric and
one `<base>_<key>` metric per non-string entry of the device's `state`. The
base name is `homekit_<type>_<room>_<name>`, lower-cased, with spaces
removed. Temperature entries are converted from Celsius to Fahrenheit when
the configured unit is `f` or `F`. A description per metric name is kept in
`metricsDesc`, which outlives a single poll.

This project models two parts of `src/main.py`:

- `getNestedValue` and the settings the `HomeKit` constructor reads with it
  (`config.dfy`, `homekit.dfy`);
- `HomeKit.getAllDeviceMetrics`. It appears twice. `normalizer.dfy` gives a
  pure specification (`EntryStep`, `EntriesStep`, `DeviceStep`, `Poll`).
  `homekit.dfy` gives the imperative method on the `HomeKit` class, with its
  two nested loops. That method is proved to leave `metricsDesc` and its
  result exactly as `Poll` says.

A poll either returns its metric map or raises part-way. When it raises,
Python has already written some descriptions, and those stay. The model
keeps them: `Progress.Failed` carries the description table as it stood
when the exception was raised. The method returns `Outcome.Raised(fault)`
in that case. `normalizer_facts.dfy` proves what the normalizer promises:
the shape of metric names, the unit conversion, which entries are skipped,
exactly which metric names a poll returns, which descriptions a poll may
change, and that the metrics of a poll do not depend on earlier polls.

The model follows the code where the project's documentation describes it
differently:

- only spaces are removed from a metric name; other punctuation (`-`, `.`,
  `'`) is kept;
- descriptions name the configured `device` string, not the record's room
  and name;
- the reachable description is overwritten on every poll, while a state
  metric's description is written only the first time its name is seen;
- a record without `state` does not give just its reachable metric: the
  lookup `jsonOut['state']` (src/main.py:92) raises, and the whole poll
  ends with that exception after the reachable description was written;
- state keys are used verbatim in metric names (`..._currentTemperature`),
  not lower-cased; only the `homekit_<type>_<room>_<name>` base is
  lower-cased.

## Model

| member | source | states |
|---|---|---|
| Config.Position | src/main.py:41 | a list or string position is valid exactly when `-len <= i < len`; a negative position counts from the end |
| Config.Step | src/main.py:41 | one subscript succeeds exactly on a mapping holding the key, or a list or string with a valid position; it yields the mapped value, the list element at the normalized position, or the one-character string holding the character at that position; everything else falls back |
| Config.LookupPair | src/main.py:39-41 | a two-key path is two subscripts in a row, failing as soon as one does |
| Config.GetNestedValue | src/main.py:38-45 | returns the node reached by subscripting through every key of the path; returns `default` as soon as one step fails; returns `obj` itself for an empty path |
| Config.LookupAppend | src/main.py:39-41 | walking a path `p + q` is walking `p`, then `q` from the node reached |
| Config.LookupStopsAtFailedStep | src/main.py:42-44 | once one step fails, the whole lookup fails, whatever keys follow |
| Config.LookupPrefixSucceeds | src/main.py:39-45 | a successful lookup passes through a node at every prefix of the path |
| Exporter.Setting | src/main.py:51-54 | a setting is the configured value when the document is a mapping whose section is a mapping holding the name, and the default otherwise |
| Exporter.HomeKit.constructor | src/main.py:48-56 | host, port, poll time and temperature unit are the configured values at `connection.host`, `connection.port`, `settings.poll` and `settings.temperature`; otherwise they are `localhost`, 8423, 30 and `F`; the description table starts empty |
| Exporter.HomeKit.GetAllDeviceMetrics | src/main.py:75-104 | the new description table and the result (metrics or raised fault) are exactly those of `Poll`; no description key is lost; only reachable descriptions of polled records are overwritten; every returned metric has a description; the returned metric names are exactly the reachable names and non-string state entries of the records |
| Exporter.HomeKit.AddStateMetrics | src/main.py:92-103 | the inner loop over `state` items leaves the description table and metrics exactly as `EntriesStep` does, and reports the fault when a conversion raises |
| Text.LowerChar | src/main.py:87 | a lower-cased character is never upper-case; non-capitals are unchanged |
| Text.CaseInverse | src/main.py:87 | lower- and upper-casing undo each other on letters |
| Text.Lower | src/main.py:87 | `lower()` keeps the length, leaves no capital, and keeps each character up to case |
| Text.RemoveSpaces | src/main.py:87 | `replace(" ", "")` shortens the string by exactly its number of spaces |
| Text.UpperChar | src/main.py:103 | a lower-case letter becomes the capital that lower-cases back to it; other characters are unchanged |
| Text.Capitalize | src/main.py:103 | `capitalize()` keeps the length, upper-cases the first character and lower-cases the rest |
| Text.Contains | src/main.py:98 | a substring is never longer than the string containing it |
| Text.LowerAppend | src/main.py:87 | lower-casing distributes over concatenation |
| Text.LowerIdempotent | src/main.py:87 | lower-casing twice is lower-casing once |
| Text.RemoveSpacesKeepsOthers | src/main.py:87 | `replace(" ", "")` leaves no space, keeps every other character as often as it occurs, and adds none |
| Text.RemoveSpacesAppend | src/main.py:87 | space removal distributes over concatenation, so order is kept |
| Text.RemoveSpacesNoSpace | src/main.py:87 | a string without spaces is unchanged |
| Text.ContainsAt | src/main.py:98 | a window of the string equal to the substring makes `in` true |
| Text.ContainsWitness | src/main.py:98 | when `in` is true, a window equal to the substring exists |
| Normalizer.Squash | src/main.py:87 | one normalized part of a metric name holds no space and no capital letter |
| Normalizer.BaseName | src/main.py:87 | the base name holds no space and no capital letter |
| Normalizer.ReachableName | src/main.py:89 | the reachable metric's name is the name a state key `reachable` would get |
| Normalizer.MetricName | src/main.py:97 | a state metric's name is the base, one `_`, then the state key verbatim, so the key can be read back |
| Normalizer.ReachableDescription | src/main.py:90 | the reachable description ends with the configured device string |
| Normalizer.Description | src/main.py:103 | a state description starts with the capitalized key and ends with the configured device string |
| Normalizer.IsTemperatureKey | src/main.py:98 | a temperature key is at least as long as `temperature` (the window lemmas below characterize it fully) |
| Normalizer.IsFahrenheit | src/main.py:99 | the unit test is defined exactly when the setting is a string (else `.lower()` raises) and holds exactly for `f` or `F` |
| Normalizer.AsNumber | src/main.py:100 | a number is itself; a boolean is 1 when true and 0 when false, as in Python arithmetic |
| Normalizer.ToFahrenheit | src/main.py:100 | the conversion `c * 9/5 + 32` is inverted by `(f - 32) * 5/9` |
| Normalizer.Convert | src/main.py:97-101 | a non-temperature key keeps its value; a temperature key raises when the unit is not text, keeps its value under a unit other than `f`, and under `f` raises for null or else gives the Fahrenheit number whose inverse is the input (booleans count as 1 and 0) |
| Normalizer.EntryStep | src/main.py:92-103 | once raised, an entry changes nothing; no description is dropped or changed |
| Normalizer.EntriesStep | src/main.py:92-103 | the same over a sequence of entries |
| Normalizer.DeviceStep | src/main.py:77-103 | once raised, a device changes nothing |
| Normalizer.Poll | src/main.py:75-104 | once raised, the remaining devices change nothing |
| NormalizerFacts.LowerKeepsLowerCase | src/main.py:87 | a string without capitals is unchanged by lower-casing |
| NormalizerFacts.SquashLiteral | src/main.py:87 | a literal without capitals or spaces survives the name normalization unchanged |
| NormalizerFacts.SquashSeparators | src/main.py:87 | the `homekit_` prefix and the `_` separators survive normalization |
| NormalizerFacts.SquashAppend | src/main.py:87 | name normalization distributes over concatenation |
| NormalizerFacts.BaseNameFormat | src/main.py:87 | the part-by-part base name equals the whole formatted name `homekit_<type>_<room>_<name>` lower-cased with its spaces removed |
| NormalizerFacts.SquashDropsSpace | src/main.py:87 | two words separated by a space are joined |
| NormalizerFacts.SquashSpace | src/main.py:87 | a lone space normalizes to nothing |
| NormalizerFacts.BaseNameOfPlainParts | src/main.py:87 | parts without capitals or spaces appear verbatim, punctuation included |
| NormalizerFacts.ReachableNameClash | src/main.py:89-97 | a state metric takes the reachable metric's name exactly when its key is `reachable` |
| NormalizerFacts.TemperatureKeyFromWindow | src/main.py:98 | a key containing `temperature` in any letter case is a temperature key |
| NormalizerFacts.TemperatureKeyWindow | src/main.py:98 | every temperature key contains `temperature` in some letter case |
| NormalizerFacts.CurrentTemperatureIsTemperatureKey | src/main.py:98 | `currentTemperature` is a temperature key |
| NormalizerFacts.BrightnessIsNotTemperatureKey | src/main.py:98 | `brightness` is not a temperature key |
| NormalizerFacts.ConvertExample | src/main.py:98-100 | 20 under `F` becomes 68; under `C` it stays 20; `brightness` is never converted |
| NormalizerFacts.NonStrings | src/main.py:93-96 | the kept entries are exactly the entries of the state with non-string values |
| NormalizerFacts.NonStringsAppend | src/main.py:92-96 | filtering keeps the state's order: filtering two parts is filtering each, in sequence |
| NormalizerFacts.EntriesSkipStrings | src/main.py:93-96 | string-valued entries change nothing: dropping them gives the same result |
| NormalizerFacts.EntryWrites | src/main.py:97-103 | one non-string entry that does not raise writes its converted value under its metric name, and a description only if none was there |
| NormalizerFacts.EntryFrame | src/main.py:97-103 | one entry leaves every name it does not write alone: its metric's presence and value, and whether it is described |
| NormalizerFacts.EntriesFrame | src/main.py:97-103 | a name that no entry writes keeps its metric and its description |
| NormalizerFacts.EntriesMetricNames | src/main.py:92-101 | when the inner loop does not raise, it adds exactly one metric name per non-string entry |
| NormalizerFacts.EntriesEmit | src/main.py:97-103 | with distinct keys, each non-string entry's metric holds its converted value; its description is the earlier one if present, else the capitalized key for this device |
| NormalizerFacts.EntriesFailedStays | src/main.py:92-103 | after the inner loop raises, later entries change nothing |
| NormalizerFacts.EntriesMetricsDescribed | src/main.py:101-103 | every metric the inner loop writes has a description |
| NormalizerFacts.DeviceDescribesReachable | src/main.py:89-92 | a record always rewrites its reachable description; without `state` the call then raises, keeping that description |
| NormalizerFacts.DeviceReportsReachable | src/main.py:85-89 | unless a non-string `reachable` state key overwrites it, the reachable metric is the record's raw `reachable` value |
| NormalizerFacts.DeviceKeepsDescriptions | src/main.py:90-103 | a device overwrites at most one existing description, its own reachable one |
| NormalizerFacts.DeviceMetricNames | src/main.py:89-101 | a device that does not raise adds exactly its reachable name and its state metric names |
| NormalizerFacts.PollExtend | src/main.py:77 | the outer loop extended by one device is one more device step |
| NormalizerFacts.EntriesExtend | src/main.py:92 | the inner loop extended by one entry is one more entry step |
| NormalizerFacts.PollFailedStays | src/main.py:77-103 | after the outer loop raises, later devices change nothing |
| NormalizerFacts.PollSkipsErrorReply | src/main.py:79-82 | a device whose fetch failed contributes nothing, wherever it stands |
| NormalizerFacts.PollKeepsDescriptions | src/main.py:90-103 | a poll loses no description and changes one only for the reachable metric of a polled record |
| NormalizerFacts.DeviceMetricsDescribed | src/main.py:89-103 | a device step that returns leaves every metric described |
| NormalizerFacts.PollMetricsDescribed | src/main.py:89-103 | after a poll that returns, every returned metric has a description |
| NormalizerFacts.EmittedBySnoc | src/main.py:77 | the names contributed by a list of replies are those of all but the last, plus the last's |
| NormalizerFacts.PollMetricNames | src/main.py:75-104 | the names a returning poll gives are exactly the reachable names and non-string state metric names of its records |
| NormalizerFacts.DeviceFrame | src/main.py:89-101 | a device that does not raise leaves the metric of every name it does not contribute untouched, presence and value |
| NormalizerFacts.PollSnoc | src/main.py:77 | a poll ending in one more device is one more device step |
| NormalizerFacts.PollAppend | src/main.py:77 | polling two device lists in a row is polling the first, then the second from where it left off |
| NormalizerFacts.PollFrame | src/main.py:77-101 | a poll that does not raise leaves the metric of every name no reply contributes untouched |
| NormalizerFacts.PollSplit | src/main.py:77 | a poll over the devices before one, that device and those after runs through that device's step; when it returns, so did everything up to that step |
| NormalizerFacts.PollAround | src/main.py:77 | a returning poll is the devices before `i`, device `i`'s step, then the devices after it, none raising |
| NormalizerFacts.PollReportsReachable | src/main.py:85-89 | in the returned map, each record's reachable name holds its raw `reachable` value, unless its own non-string `reachable` state key or a later reply writes that name |
| NormalizerFacts.PollDescribesReachable | src/main.py:89-90 | after a poll that returns, each record's reachable name is described by its own device string, unless a later record has the same reachable name |
| NormalizerFacts.PollReportsState | src/main.py:92-101 | in the returned map, each non-string state entry's name holds its converted value, unless a later reply writes that name |
| NormalizerFacts.EntriesIgnoreDescriptions | src/main.py:92-103 | the inner loop's metrics or fault do not depend on the description table |
| NormalizerFacts.PollIgnoresDescriptions | src/main.py:75-104 | a poll's metrics or fault do not depend on descriptions recorded by earlier polls |

## Left out

- `main`, the Prometheus `Gauge` objects, `start_http_server` and the endless poll loop with its exception printing (src/main.py:13-32): process-level I/O around the core.
- `shutdownHandler` (src/main.py:34-36): signal handling.
- `_readConfig` (src/main.py:58-60): file I/O and YAML parsing. The constructor takes the already-parsed document as a `Yaml` value.
- `confData['devices']` (src/main.py:77): the constructor takes the device list already decoded as strings. Other values are not modelled. A missing `devices` key raises KeyError, and a number, boolean or null raises TypeError. A string is iterated character by character, each character fetched as a device, and a mapping is iterated by its keys.
- `getDeviceInfo` (src/main.py:62-73): the HTTP request, URL quoting and JSON decoding. They are replaced by one `Reply` per configured device, given to `GetAllDeviceMetrics`. Every body that makes the poll raise before the device's reachable metric is written is the single case `Malformed`. That covers a body that is not JSON, since `r.json()` (src/main.py:73) is outside the `try` and aborts the whole poll. It also covers a number, boolean or null, on which the test `'error' in jsonOut` (src/main.py:79) raises TypeError. A string or array for which that test holds is `Malformed` too, because the subscript `jsonOut['error']` (src/main.py:80) raises TypeError on it. A string or array for which the test fails raises at `jsonOut['name']` (src/main.py:83), and so does an object lacking `name`, `room`, `reachable` or `type`. `ErrorReply` is exactly an object with an `error` key, whatever the HTTP status: the `{'error': err}` that `getDeviceInfo` builds when the request fails, or such an object sent by the bridge. The poll skips it.
- The `requests.Session` field and `confFile` (src/main.py:49,55): only used by the left-out I/O.
- `print` warnings (src/main.py:43,81): no output is modelled.
- `getPollTime` and `getMetricsDescriptions` (src/main.py:106-110): plain getters; the fields are public in the model.
- Normalizer.ToFahrenheit: uses exact real arithmetic, not IEEE floating point, so rounding of `value * 9/5 + 32` is not modelled.
- Text.LowerChar: `lower()` and `capitalize()` are modelled for ASCII letters only; Unicode case mapping is not captured.
- Normalizer.BaseName: `name`, `room` and `type` are modelled as strings; the `str()` rendering of a non-string value in the f-string is not captured.
- State values that are JSON lists or objects are not modelled; only numbers, booleans, strings and null are.
- A `reachable` value that is a JSON list or object is not modelled either: `Value` has only numbers, booleans, strings and null, while the source stores any JSON value unchanged as the reachable metric (src/main.py:89).
- State keys are strings, as in decoded JSON objects. A decoded object has distinct keys, but `Record.state` is a sequence and its type does not exclude repeated keys. On a repeated key, later entries see the earlier one's metric, which the source's dict cannot produce. NormalizerFacts.EntriesEmit and NormalizerFacts.PollReportsState therefore require `DistinctKeys` of the state.
- A `state` that is present but not an object raises at src/main.py:92, like a missing one, after the reachable writes. Both are the case `state == None`.
