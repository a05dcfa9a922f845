# mqttnotifier, modelled in Dafny

mqttnotifier subscribes to MQTT topics and turns every message it receives into a
desktop notification, sent through the D-Bus notification service
(`org.freedesktop.Notifications`). This project models the message-handling core of
`mqttnotifier.py` as pure functions over immutable data and proves properties of it.
The model covers:

- **Topic matching** (`topics.dfy`, module `Topics`). MQTT topic-filter matching as
  section 4.7 of OASIS MQTT Version 3.1.1 defines it: `+` takes exactly one level,
  `#` takes the remaining levels including none, and a filter whose first level is a
  wildcard does not match a topic that starts with `$`. The program gets this from
  the library call at line 145.
- **The topic registry** (`registry.dfy`, module `TopicRegistry`). `self.topics` is a
  Python dict, which keeps its keys in insertion order; the model is an association
  list. `find_format` returns the format of the *first* filter, in that order, that
  matches the topic, or nothing where the program raises `KeyError`.
- **Format merge** (`formats.dfy`, module `Formats`). `DEFAULT_FORMAT | fmt`.
- **Registry assembly** (`cli.dfy`, module `Cli`). The configuration file's table,
  then the `-t TOPIC [BODY [TITLE]]` options added with `|=`.
- **Payload extraction** (`payload.dfy`, module `Payload`). How the decoded payload
  becomes the title and body variables. A JSON object keeps its fields in the order of
  the text, so `str(data)` can show that order; a repeated name reads its last value.
- **Delivery** (`dispatcher.dfy`, module `Dispatcher`). `notify`: test mode, retry on
  "ServiceUnknown" with a back-off of 0, 1, then ×1.5 capped at 300 seconds, a reset
  on success, and a drop on any other D-Bus error. The D-Bus calls are a supplied
  sequence of outcomes and every `time.sleep` is an emitted delay.
- **The message handler** (`notifier.dfy`, module `Notifier`). `on_message` for one
  message, and a run of messages through one notifier. `Notifier.Loop` is the client
  loop for any handler, with its order and invariant lemmas proved once;
  `Notifier.Run` is that loop with `on_message` as the handler.

`optional.dfy` holds the `Option` type, and `pairs.dfy` the names of a list of pairs (`Pairs.Keys`), shared by registries and JSON objects.

The libraries the handler calls are parameters of the model (`Notifier.Libraries`):
`json.loads` (text to a JSON value or a decoding error), Python's `str` of a parsed
object, and the Jinja2 renderer (template and variables to a string, or `None` when it
raises). Each D-Bus `Notify` call, with the reconnection after a "ServiceUnknown"
error, is a `Dispatcher.CallOutcome`.

## Behaviour of the code worth knowing

- A failed reconnection is not retried. `connect_dbus()` (line 91) runs in the
  `except` clause of the inner `try` (lines 73-93), not inside that `try`. A D-Bus
  error it raises therefore reaches the outer handler at line 100, and the
  notification is dropped after `time.sleep` and with the back-off already grown
  (lines 89-90). The model has this as `Rejected(error, reconnects := false)`.
- A template error ends the session. Nothing catches an exception from rendering at
  lines 176-177, so it leaves `on_message` and the message loop, which stops the
  client and re-raises (lines 113-120). `Notifier.Run` stops at such a message.
- A format has two fields that matter, `title` and `body` (lines 34-37, 176-177).
  Every other key of a format is carried along by the merge at line 173 and never
  read. `Notify` always receives the application name "mqtt", icon `""`, no actions,
  no hints and the notifier's duration in milliseconds (lines 74-83).
- The `-t` topics come after the configuration's filters. `|=` (lines 211-213)
  appends a new key and replaces the value of an existing key in place, so an
  earlier configuration filter that matches a topic wins over a `-t` topic, and a
  `-t` topic equal to a configuration key replaces that key's format without moving
  it.

## Model

| member | source | states |
|---|---|---|
| Topics.Split | mqttnotifier.py:145 | a topic or filter has at least one level and no level contains the separator |
| Topics.JoinSplit | mqttnotifier.py:145 | joining the levels of any string with '/' gives the string back |
| Topics.SplitJoin | mqttnotifier.py:145 | levels without a separator survive a join followed by a split |
| Topics.SplitAppend | mqttnotifier.py:145 | the levels of `a/b` are the levels of `a` followed by those of `b` |
| Topics.MatchLevelsByPosition | mqttnotifier.py:145 | the recursive matcher accepts exactly the pairs where the filter's levels, `+` standing for any one level, agree position by position with all of the topic's levels, or with a prefix of them when the filter ends in its only `#` |
| Topics.Matches | mqttnotifier.py:145 | `topic_matches_sub(filter, topic)` holds exactly when the filter's levels agree position by position with the topic's (the positional definition of `Topics.MatchLevelsByPosition`), except that a filter whose first level is a wildcard never matches a topic starting with '$' |
| Topics.LiteralFilterMatchesOnlyItself | mqttnotifier.py:145 | a filter without wildcard levels matches one topic: itself |
| Topics.MultiLevelMatchesParentAndChildren | mqttnotifier.py:145 | `T/#` matches `T` itself and every topic below it, for every topic name `T`, '$' topics included |
| Topics.SingleLevelMatchesExactlyOneLevel | mqttnotifier.py:145 | `T/+` matches every topic one level below `T` and does not match `T`, for every topic name `T`, '$' topics included |
| Topics.MultiLevelAlone | mqttnotifier.py:145 | `#` matches a topic exactly when the topic does not start with '$' |
| Topics.MultiLevelExamples | mqttnotifier.py:145 | the `#` examples of the MQTT standard, on levels: "sport/tennis/player1/#" matches the player's topic, its ranking and its score; "sport/#" matches "sport" |
| Topics.SingleLevelExamples | mqttnotifier.py:145 | the `+` examples of the MQTT standard, on levels: "sport/tennis/+" matches one level below "sport/tennis" and no deeper; "sport/+" rejects "sport" and accepts "sport/"; "+/+" and "/+" match "/finance", "+" does not |
| Topics.DollarHiddenFromWildcards | mqttnotifier.py:145 | "#" and "+/monitor/Clients" do not match "$SYS/monitor/Clients" |
| Topics.DollarSpelledOut | mqttnotifier.py:145 | "$SYS/#" matches "$SYS/monitor/Clients" |
| TopicRegistry.LookupAbsent | mqttnotifier.py:211-213 | a dictionary has no value under a key exactly when the key is not one of its keys |
| TopicRegistry.Put | mqttnotifier.py:212-213 | `d[key] = value` grows the registry by one entry for a new key and not at all for an existing one, and afterwards the key maps to `value` |
| TopicRegistry.PutPositions | mqttnotifier.py:212-213 | `d[key] = value` keeps every entry at its position with its key, changes no value stored under another key, and appends `(key, value)` when the key is new |
| TopicRegistry.PutKeys | mqttnotifier.py:212-213 | storing a key keeps the order of the keys, and a new key goes last |
| TopicRegistry.PutLookup | mqttnotifier.py:212-213 | after storing, the key maps to the new value and every other key to its old one |
| TopicRegistry.PutUnique | mqttnotifier.py:212-213 | storing never makes a key appear twice |
| TopicRegistry.Update | mqttnotifier.py:211-213 | `d \|= entries` keeps the old keys at their positions, leaves untouched every entry whose key no entry names, adds at most one entry per entry given, and every added entry's key comes from the entries |
| TopicRegistry.UpdateKeys | mqttnotifier.py:211-213 | after `d \|= entries` the old keys keep their order and come first, and the new keys follow in order of first appearance |
| TopicRegistry.UpdateLookup | mqttnotifier.py:211-213 | after `d \|= entries` a key takes the value of its last entry, and keeps its old value when no entry names it |
| TopicRegistry.UpdateUnique | mqttnotifier.py:211-213 | `d \|= entries` never makes a key appear twice |
| TopicRegistry.FirstMatch | mqttnotifier.py:142-146 | the index found belongs to a filter that matches the topic and no earlier filter matches; nothing is found exactly when no filter matches |
| TopicRegistry.FindFormat | mqttnotifier.py:142-147 | the result is absent (the `KeyError` case) exactly when no filter matches, and otherwise is the format of a matching filter with no matching filter before it |
| TopicRegistry.FirstMatchOnPrefix | mqttnotifier.py:142-146 | a registry whose filters extend another's keeps the other's first match, and otherwise finds its first match only among the added filters |
| TopicRegistry.EarlierFilterShadowsLater | mqttnotifier.py:142-146 | with "sensors/#" registered before "sensors/temp", the topic "sensors/temp" gets the format of "sensors/#" |
| Formats.Merge | mqttnotifier.py:173 | the merged format has the keys of both formats, and every key the override sets keeps the override's value while every other key comes from `DEFAULT_FORMAT`; title and body are always there |
| Formats.MergeIdempotent | mqttnotifier.py:173 | merging with the default a second time changes nothing |
| Formats.MergeNothing | mqttnotifier.py:34-37 | merging the empty format of an unmatched topic gives `DEFAULT_FORMAT`, title "{{title}}" and body "{{body}}" |
| Cli.ZipDict | mqttnotifier.py:212 | `dict(zip(keys, values))` has as keys those of the pairs up to the shorter length; a key takes the value of its last pair, so with distinct keys every pair is kept |
| Cli.OptionFormat | mqttnotifier.py:212 | the first extra argument of `-t` becomes the body template and the second the title template; further arguments are ignored; a topic alone gives `{}` |
| Cli.Assemble | mqttnotifier.py:211-213 | the assembled registry starts with the configuration's filters at their positions, leaves a filter no `-t` names exactly as configured, and adds at most one entry per `-t` option |
| Cli.FreshTwice | mqttnotifier.py:211-213 | keeping the keys not in `seen`, each once in order of first appearance, gives the same list whether or not the keys not in `earlier` were kept first, when every key of `earlier` is in `seen` |
| Cli.AssembleKeys | mqttnotifier.py:211-213 | the assembled registry lists the configuration's filters first, in order, then the new `-t` topics in order of first mention, each filter once |
| Cli.AssembleValue | mqttnotifier.py:211-213 | every filter of the assembled registry carries the format of its last `-t` if it has one, and its configuration format otherwise |
| Cli.AssembleKeepsConfig | mqttnotifier.py:211-213 | a configuration filter keeps its position; if `-t` names it, its format is replaced by that of the last such `-t` |
| Cli.AssembleAppendsOptions | mqttnotifier.py:211-213 | every entry after the configuration's is a `-t` topic the configuration lacked, with the format of its last `-t` |
| Cli.ComprehensionExample | mqttnotifier.py:212-213 | the options `-t b BODY` and `-t c BODY2 TITLE2 extra` give "b" with body "BODY", then "c" with body "BODY2" and title "TITLE2"; the extra argument is dropped |
| Cli.UpdateExample | mqttnotifier.py:211-213 | putting those two entries into a configuration with "a/#" and "b" replaces the format of "b" in place and appends "c" |
| Cli.AssembleExample | mqttnotifier.py:211-213 | configuration filters "a/#" and "b" with options `-t b BODY` and `-t c BODY2 TITLE2 extra` give "a/#" unchanged, "b" in place with body "BODY", then "c" with body "BODY2" and title "TITLE2" |
| Cli.ConfigMatchesFirst | mqttnotifier.py:211-213 | a configuration filter that matches a topic first still answers for it after the `-t` options are added, with the `-t` format when it names the same filter |
| Payload.LastIndex | mqttnotifier.py:156-159 | the index found holds a field with the name, and no later field has it |
| Payload.BuildKeepsLast | mqttnotifier.py:156-159 | building the dictionary pair by pair, each pair overwriting its name, leaves under a name the value `FieldValue` reads (its last field), or what was there before when no field has the name |
| Payload.FieldValueAt | mqttnotifier.py:156-159 | when every name occurs once, as in a dictionary, a field's name reads back that field's value |
| Payload.Extract | mqttnotifier.py:154-165 | for a JSON object, title is its "title" field or else the topic, and body is its "message" field or else `str(data)`, a repeated name giving its last value; for any other payload, title is the topic and body the payload text; there is no failure case |
| Payload.NonObjectIsPlainText | mqttnotifier.py:157-165 | JSON that is not an object is handled exactly like text that is not JSON |
| Payload.OtherFieldsIgnored | mqttnotifier.py:157-159 | when "message" is present, the other fields of the object, apart from "title", do not affect the result |
| Payload.FieldOrderReachesBody | mqttnotifier.py:159 | without a "message" field the body is `str(data)` of the whole object, so `{"a": 1, "b": 2}` and `{"b": 2, "a": 1}` can give different bodies |
| Dispatcher.NextBackOff | mqttnotifier.py:88-90 | the next back-off never exceeds 300; from a valid back-off (0, or between 1 and 300) it is valid, at least 1 and not smaller, and it grows strictly below the cutoff |
| Dispatcher.Sleeps | mqttnotifier.py:88-90 | the `n` sleeps of `n` failures in a row are the back-off after 0, 1, …, n-1 failures |
| Dispatcher.Notify | mqttnotifier.py:62-103 | test mode makes no call and changes nothing; otherwise the delivery ends in some verdict other than skipped, uses at least one outcome unless it is still pending, and never uses more outcomes than supplied |
| Dispatcher.NotifyBackOff | mqttnotifier.py:86-97 | the sleeps are the back-offs of successive failures starting from the notifier's own; a sent notification resets the back-off to 0, any other ending leaves it as the failures grew it |
| Dispatcher.NotifyConsumes | mqttnotifier.py:72-101 | every outcome but the last one used is a retry; the delivery is pending exactly when all supplied outcomes are retries; sent means the last outcome used was a success; dropped means it was a D-Bus error that is not a retry; there is one sleep per "ServiceUnknown" error |
| Dispatcher.GrownValid | mqttnotifier.py:30-32 | a valid back-off stays valid through any number of failures |
| Dispatcher.FreshBackOff | mqttnotifier.py:88-90 | from a fresh notifier the back-off after `k` failures is 0 for `k = 0` and min(1.5^(k-1), 300) after that |
| Dispatcher.FreshSleeps | mqttnotifier.py:88-91 | the sleeps of any delivery from a fresh notifier are 0, 1, 1.5, 2.25, … capped at 300 |
| Dispatcher.NotifyKeepsBackOffValid | mqttnotifier.py:88-97 | every sleep lies in [0, 300], and so does the back-off left behind |
| Dispatcher.OtherErrorDrops | mqttnotifier.py:92-101 | a D-Bus error without "ServiceUnknown" drops the notification after one call, with no sleep and the back-off unchanged |
| Dispatcher.ThreeFailuresThenSent | mqttnotifier.py:72-97 | three "ServiceUnknown" failures, then a success, give sleeps 0, 1 and 1.5 seconds, a sent notification and back-off 0 |
| Notifier.ResolveFormat | mqttnotifier.py:167-173 | with no matching filter the format is `DEFAULT_FORMAT`; otherwise the first matching filter's keys override the default's and the default supplies the rest |
| Notifier.OnMessage | mqttnotifier.py:149-180 | the registry never changes; the format and variables come from the first match and the payload; a raising template stops the message before `notify` with the notifier unchanged; otherwise `notify` gets the two rendered strings and the notifier takes the dispatcher state it leaves |
| Notifier.Run | mqttnotifier.py:113-120 | a run gives at most one handling per message and never changes the registry or the test flag |
| Notifier.RunHaltsOnlyAtEnd | mqttnotifier.py:113-120 | no handling of a run but the last one halts it (a raising template, or a delivery still retrying) |
| Notifier.RunCompletesUnlessHalted | mqttnotifier.py:113-120 | a run handles every message unless its last handling halted it |
| Notifier.RunStartsWithFirstMessage | mqttnotifier.py:149-179 | the first handling of a non-empty run is exactly `on_message` applied to the first message with the notifier's own state |
| Notifier.RunHandlesInOrder | mqttnotifier.py:149-177 | the i-th handling belongs to the i-th message: its format is the one resolved for that message's topic and its template variables are that message's `title`, `topic` and `body` |
| Notifier.LoopThreads | mqttnotifier.py:113-120 | in the client loop, every message after the first is handled in the state the previous handling left, with the outcomes the earlier handlings did not use |
| Notifier.RunThreadsState | mqttnotifier.py:86-97 | `self.back_off`, set once at line 46, persists across messages: every message after the first is handled in the dispatcher state the previous delivery left, grown by failures or reset by a send, and with the D-Bus outcomes earlier deliveries did not use; the previous message reached `notify` |
| Notifier.RunKeepsBackOffValid | mqttnotifier.py:88-97 | across any run of messages the back-off and every sleep stay within [0, 300] |
| Notifier.TestModeMessage | mqttnotifier.py:65-67 | in test mode one message leaves the notifier unchanged, and a message that reaches `notify` is skipped with no D-Bus call and no sleep |
| Notifier.TestModeRun | mqttnotifier.py:65-67 | in test mode no D-Bus call is made and the notifier never changes; only a raising template stops the run early |
| Notifier.UnmatchedTopicUsesDefault | mqttnotifier.py:167-173 | a topic no filter matches is rendered with the templates "{{title}}" and "{{body}}" |
| Notifier.SensorScenario | mqttnotifier.py:149-177 | for topic "sensors/temp" under "sensors/+" with title "Temp: {{topic}}" and payload {"message": "21C"}, the title template is the filter's, the body template is "{{body}}", and the variables hold the topic as title and "21C" as body |
| Notifier.AlertScenario | mqttnotifier.py:149-177 | for topic "alerts/critical" under "alerts/#" with payload "not json", the format is the filter's merged onto the default, and the variables hold the topic as title and "not json" as body |

## Left out

- MQTT client plumbing (`start`, `stop`, `on_connect`, `on_disconnect`, the subscription loop, lines 105-140): network I/O driven by callbacks. `Notifier.Run` stands for the loop's sequential delivery of messages.
- The D-Bus connection and the `Notify` call (lines 49-60, 74-83): each call, with the reconnection after a "ServiceUnknown" error, is a supplied `CallOutcome`. The constant call arguments (application name, icon, actions, hints, `notification_duration*1000`) are not modelled.
- `time.sleep` is recorded as an emitted delay and not performed.
- Exceptions other than `DBusException` raised by `Notify` (re-raised at lines 102-103): outside the outcome model.
- Jinja2 rendering (lines 176-177), `json.loads` and lossy UTF-8 decoding (lines 151, 156), and `str(data)`: libraries whose code is not part of this model. They are function parameters.
- argparse, TOML loading, logging and the log-level arithmetic, daemonization and the outer restart loop of `main` (lines 185-254): plumbing and OS interaction. The model receives the configuration table as a registry and the `-t` options as `Cli.TopicOption` values.
- Configuration values that are not tables of strings: the registry holds string templates only.
- Topics.Matches: a filter with `#` before its last level is invalid under the MQTT standard and matches nothing here. The MQTT library would instead compare such a level literally.
- Dispatcher.NextBackOff: the back-off is an exact `real`, where the program uses IEEE doubles. The values reached before the 300-second cutoff are 1.5^k for k up to 14, which are 3^k/2^k with 3^14 < 2^23, so doubles hold them exactly and the two agree.
- Dispatcher.Notify: the endless retry loop ends, as `Pending`, when the supplied outcomes run out.
