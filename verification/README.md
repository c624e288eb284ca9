# Service Bus device heartbeat daemon — Dafny model

This project models the core of a Go daemon that receives device telemetry
messages from Azure Service Bus topic subscriptions and is meant to record,
per (client, device, message code), when each device was last seen. The
model covers three parts:

- **Inbound message processing** (`processFunc`, module `Processing`). The
  message body is decoded as JSON into a map. The handler returns an error
  for a syntax error, for a document that is neither an object nor null,
  and for an object holding a number beyond float64 range anywhere, even
  under a key that a later duplicate overwrote. The handler takes the `metadata` object
  and parses `reportfile_date` with the Go layout `20060102150405`. It
  re-emits the date as `2006-01-02 15:04:05` and reads `client_code`,
  `device_code` and `is_raw`. It prints a line for a non-raw message and
  acknowledges every message it parsed with `Complete`. The outcome has
  three shapes: an error returned before any effect, a run-time panic from
  an unchecked type assertion, or a handled message with its ordered effects.
- **Go time parsing and formatting** for those two layouts (module
  `GoTime`). Parsing reads the fields chunk by chunk as Go's `time.Parse`
  does for this layout. `getnum` reads the hour without a fixed width, so a
  one-digit hour is read, but the parse then fails at the minutes; every
  accepted date starts with fourteen digits.
  Each range check happens as its field is read. A trailing fractional
  second (`.ddd` or `,ddd`) is accepted, as Go's time package documents.
  Leftover text is refused, and the day-of-month check comes last, with
  Gregorian leap years.
- **The device table** (`countRowsOfDevice`, `UpsertDevice`, `insertDevice`,
  module `DeviceStore`). The table is a sequence of rows keyed by (client,
  device, message code). The upsert is modelled twice. One version is the
  code as written: its branches are still placeholders, so the table never
  changes. The other is the behaviour its doc comment promises: update the
  last ping of an existing key, or else insert a row.
- **Topic and subscription provisioning** (`GetOrBuildTopic`,
  `GetOrBuildSubscription`, `DeleteTopic`, module `Provisioning`). These
  are get-or-create and delete over a namespace of topic names and
  (topic, subscription) pairs. Every failing SDK or service call is an
  input. A `log.Fatalln` path ends the process (`Aborted`) instead of
  returning an error.

The JSON value, the clock reading and what `Complete` returns are
parameters of the model. So are the database and Service Bus failures.

The model follows the code:
- The handler panics on a missing or mistyped field. It does not report a
  parse error.
- The handler never reads `message_code` or `family_name`.
- `UpsertDevice` ignores the raw flag.
- Nothing in these files calls `UpsertDevice`. The handler never builds its
  message struct.

## Model

| member | source | states |
|---|---|---|
| GoTime.ParseCompact | main.go:114-118 | an accepted report date always names a valid instant: month 1..12, day within its month (Gregorian leap years), hour < 24, minute and second < 60, four-digit year |
| GoTime.ParseFourteenDigits | main.go:114-118 | on fourteen ASCII digits the parse is a range check of the six digit fields, failing on the first bad field in the order month, hour, minute, second, day |
| GoTime.FourteenDigitsAcceptedIff | main.go:114-118 | a fourteen-digit date is accepted exactly when its fields form a valid instant, and then the instant is those fields |
| GoTime.FourteenDigitsRejected | main.go:114-118 | a month outside 1..12, a day outside 1..days-in-month, an hour ≥ 24, a minute ≥ 60 or a second ≥ 60 each make the parse fail |
| GoTime.LeapDayAcceptedIff | main.go:114-118 | February 29th is accepted exactly in Gregorian leap years |
| GoTime.AcceptedShape | main.go:114-118 | every accepted date is fourteen digits, optionally followed by a fractional second, and parses to the same instant as its first fourteen digits |
| GoTime.ParseCompactRoundTrip | main.go:114-119 | printing a valid instant in the input layout and parsing it back gives the same instant |
| GoTime.FormatIsReinsertedCompact | main.go:119 | the output layout is the input layout with `-`, ` ` and `:` inserted at fixed places |
| GoTime.ReformatFourteenDigits | main.go:114-119 | an accepted fourteen-digit date comes out 19 characters long as `d[0..4]-d[4..6]-d[6..8] d[8..10]:d[10..12]:d[12..14]`, and removing the separators gives `d` back |
| GoTime.ReformatAccepted | main.go:114-119 | any accepted date is output as its first fourteen digits with separators inserted |
| GoTime.StripReinsert | main.go:119 | the reformatted date is 19 characters, and removing `-`, ` ` and `:` recovers the fourteen digits |
| GoTime.Format | main.go:119 | the output layout of an instant with a four-digit year and two-digit fields is exactly 19 characters |
| GoTime.PadIsDecimal | main.go:119 | zero-padding a number that fits the width gives exactly that many digits, denoting the number |
| GoTime.PadOfDecimal | main.go:119 | zero-padding the value of a digit string to its length gives the string back |
| Processing.Unmarshal | main.go:108-111 | decoding into the handler's map succeeds exactly for a well-formed null or an object all of whose numbers fit a float64, including the values overwritten by later duplicate keys; an object's last-wins members are passed on unchanged; an object holding an overflowing number, at any depth, is the range error |
| Processing.ProcessFunc | main.go:98-134 | the handler returns a decode error exactly when decoding into the map fails; a handled message is completed exactly once, as its last effect, the handler returns what `Complete` returned, and a line is printed exactly when the message is not raw |
| Processing.PrintLine | main.go:130-131 | the printed line starts with `Msg: ClientCode = ` and the client code, and ends with `, Raw: false` or `, Raw: true` and a newline, as the raw flag says |
| Processing.BuildMessage | main.go:121-133 | a built message is completed exactly once, as its last effect; the handler returns what `Complete` returned; a line is printed exactly when the message is not raw |
| Processing.OutcomeClassification | main.go:98-134 | three-way split, in both directions. Returned error: undecodable body, a document that is neither an object nor null, an object holding a number beyond float64 range (including under an overwritten duplicate key), or unparsable date. Panic: null document, missing or non-object metadata, missing or non-string date, or (only after the date parsed) a mistyped client code, device code or raw flag. Handled: everything else |
| Processing.UndecodableNeverCompleted | main.go:107-111 | a body that fails JSON decoding returns the decoder's error and is never completed |
| Processing.MetadataOutcome | main.go:114-133 | once the metadata object is in hand, an error is returned exactly when the date string fails to parse, and the message is handled exactly when the date parses and the three fields have their asserted types |
| Processing.MissingMetadataPanics | main.go:109-112 | a missing or non-object `metadata` panics, and so does a top-level JSON null (a nil map), unless an overflowing number, even one under an overwritten duplicate key, made the decode fail first |
| Processing.HandledMessage | main.go:112-133 | a handled message carries the sent client code, device code and raw flag, the date reformatted from its first fourteen digits, and the clock reading in the output layout; its effects are "print unless raw, then complete" |
| Processing.HandledEffects | main.go:129-133 | every handled message is completed exactly once as its last effect, raw or not; the return value is `Complete`'s; a line is printed exactly when the message is not raw |
| Processing.PrintedLinesSayNotRaw | main.go:129-131 | only a message that is not raw is printed, so every printed line is the message's line and ends with `, Raw: false` |
| Processing.HandledDateRoundTrip | main.go:114-119 | for a fourteen-character report date the stored date is 19 characters and strips back to the input |
| Processing.OutOfRangeDateRejected | main.go:114-118 | a fourteen-digit date with an out-of-range field is a returned error, so the message is not completed |
| Processing.ProcessMetadataReadsUsedKeys | main.go:114-127 | the handler's behaviour from the date on depends only on the four metadata keys it reads |
| Processing.ExtraKeysIgnored | main.go:108-132 | keys the handler does not read change nothing when all numbers in the body fit a float64, including those under overwritten duplicate keys: the outcome is that of the body cut down to `metadata` and its four used keys; otherwise the decode error is returned |
| Processing.ScenarioHandled | main.go:98-134 | the example event `C1`/`D9` with date `20240115093000` is printed and completed once, with date `2024-01-15 09:30:00` |
| Processing.ScenarioOverflowingExtraKey | main.go:108-111 | the handled example with an extra top-level key `"x": 1e400` is a returned decode error |
| Processing.ScenarioShadowedOverflow | main.go:108-111 | the handled example with `"x": 1e400` followed by `"x": 1` is still a returned decode error |
| Processing.ScenarioNotADate | main.go:114-118 | a report date `not-a-date` is a returned error |
| DeviceStore.CountRowsOfDevice | dbmgmt/dbmgmt.go:48-69 | a failed ping or count query gives -1 and that error; otherwise the total is the number of rows whose client, device and message code all match, and it is positive exactly when such a row exists |
| DeviceStore.CountIsMatchingRows | dbmgmt/dbmgmt.go:61-68 | the row-by-row count equals the size of the set of matching row positions |
| DeviceStore.CountZeroIffAbsent | dbmgmt/dbmgmt.go:61-68 | the count is zero exactly when no row carries the key |
| DeviceStore.CountAtMostOne | dbmgmt/dbmgmt.go:61-68 | under the one-row-per-key invariant a key is counted at most once |
| DeviceStore.UpsertDevice | dbmgmt/dbmgmt.go:71-95 | documented intent: an error exactly when the count fails, and then the table is unchanged; on success the table keeps its length when the key exists and grows by one row when it does not |
| DeviceStore.UpsertDeviceAsWritten | dbmgmt/dbmgmt.go:83-94 | as written: the count's error is returned, and the table never changes |
| DeviceStore.InsertDeviceAsWritten | dbmgmt/dbmgmt.go:97-100 | as written: `insertDevice` reports success and writes nothing |
| DeviceStore.UpsertCountFailure | dbmgmt/dbmgmt.go:53-56 | a failed count is returned as the upsert's error and nothing is written |
| DeviceStore.UpsertExisting | dbmgmt/dbmgmt.go:71-90 | documented intent, existing key: exactly one row changes, that key's row, and only its last ping, to the report date |
| DeviceStore.UpsertAbsent | dbmgmt/dbmgmt.go:71-93 | documented intent, absent key: exactly one row with that key is appended |
| DeviceStore.UpsertLeavesOtherKeys | dbmgmt/dbmgmt.go:71-73 | rows with any other key are exactly as before, in order |
| DeviceStore.UpsertPreservesUniqueKeys | dbmgmt/dbmgmt.go:71-93 | the upsert keeps at most one row per key |
| DeviceStore.UpsertIdempotent | dbmgmt/dbmgmt.go:71-73 | applying the same message twice gives the same table as applying it once |
| DeviceStore.UpsertRecordsPing | dbmgmt/dbmgmt.go:71-73 | after a successful upsert the table holds the key's row with the message's report date |
| DeviceStore.AsWrittenDropsNewDevice | dbmgmt/dbmgmt.go:88-94 | as written, an upsert for a new device reports success but leaves no row for it; the documented version inserts one |
| Provisioning.GetOrBuildTopic | sbmgmt/topicmgmt.go:11-42 | on success the name is a topic and the handle is for it; no other topic or subscription changes |
| Provisioning.GetOrBuildSubscription | sbmgmt/topicmgmt.go:65-97 | on success the pair (topic, subscription) exists and the handle is for it; topics and all other pairs are unchanged |
| Provisioning.DeleteTopic | sbmgmt/topicmgmt.go:44-63 | it returns exactly when obtaining the namespace and deleting both succeed; the name is then absent, other topics remain, subscriptions are untouched |
| Provisioning.TopicNamespaceFailureAborts | sbmgmt/topicmgmt.go:14-18 | failing to obtain the namespace exits the process |
| Provisioning.ExistingTopicUntouched | sbmgmt/topicmgmt.go:25-35 | an existing topic is never created again and the namespace is unchanged |
| Provisioning.TopicLookupErrorReturned | sbmgmt/topicmgmt.go:25-28 | a lookup error other than "not found" is returned and nothing is created |
| Provisioning.TopicCreateFailureReturned | sbmgmt/topicmgmt.go:30-34 | a failed create of a missing topic is returned as an error |
| Provisioning.TopicEnsured | sbmgmt/topicmgmt.go:25-41 | with no failures the topic exists afterwards, created exactly when it was missing |
| Provisioning.TopicSecondCallNoop | sbmgmt/topicmgmt.go:25-41 | a second call after a successful one issues no create, changes nothing and returns the same handle |
| Provisioning.DeleteTopicRemovesOnlyName | sbmgmt/topicmgmt.go:56-62 | deleting removes exactly the named topic |
| Provisioning.DeleteFailureAborts | sbmgmt/topicmgmt.go:56-60 | a failed delete exits the process rather than returning |
| Provisioning.DeleteUndoesCreate | sbmgmt/topicmgmt.go:25-62 | deleting a topic the provisioning just created restores the original namespace |
| Provisioning.SubscriptionManagerFailureAborts | sbmgmt/topicmgmt.go:67-79 | failing to obtain the namespace or the subscription manager exits the process |
| Provisioning.ExistingSubscriptionUntouched | sbmgmt/topicmgmt.go:80-90 | an existing subscription is never created again and the namespace is unchanged |
| Provisioning.SubscriptionLookupErrorReturned | sbmgmt/topicmgmt.go:80-83 | a lookup error other than "not found" is returned and nothing is created |
| Provisioning.SubscriptionCreateFailureReturned | sbmgmt/topicmgmt.go:85-89 | a failed create of a missing subscription is returned as an error |
| Provisioning.SubscriptionEnsured | sbmgmt/topicmgmt.go:80-96 | with no failures the pair exists afterwards, only that pair can be added, and it is created exactly when it was missing |
| Provisioning.SubscriptionSecondCallNoop | sbmgmt/topicmgmt.go:80-96 | a second call after a successful one issues no create, changes nothing and returns the same handle |

## Left out

- `main`, `receiveMsgs` and both `testDatabase` functions: these are
  startup orchestration, the SDK receive loop with its 10-second timeout,
  and debug queries against an unrelated table.
- `ConnectDatabase` and sbmgmt/nsmgmt.go are `.env` loading, connection
  strings and driver or SDK setup. Only their failure reaches the model, as
  an input.
- Byte-level JSON decoding is left out. The model takes the decoded value
  or the scanner's syntax error, and nesting deeper than 10000 levels is one
  of those. Each number is kept as its literal together with whether
  `strconv.ParseFloat` overflows on it. The decimal-to-float64 rounding is
  not modelled.
- Processing.Unmarshal: when several numbers overflow, Go reports the first
  one in the text. The model's map has no text order, so the error does not
  name the number.
- `time.Now()` is an input (`now`). `Format` handles any non-negative year.
  Negative years cannot be represented.
- The SQL text and the driver are left out. The count query interpolates
  its three values into the SQL string without escaping. The model treats
  it as an exact match on the three columns.
- The `current_heartbeat` column and the heartbeat loop do not appear in
  these files, so rows carry only their key and last ping.
- Processing.BuildMessage: the panic cause among client code, device code and raw flag follows
  gc's left-to-right evaluation of the struct literal. The Go language does
  not fix the order of these assertions, so only "panics" is guaranteed.
- `DeleteTopic` does not model the service-side removal of a deleted
  topic's subscriptions. `GetOrBuildSubscription` does not model the
  service refusing a subscription on a missing topic. Both are decided by
  the service, outside these files.
- The 10-second contexts, the handles' SDK state and concurrent
  provisioning races are left out. Each call's failure is an input.
- DeviceStore.UpsertDevice: the documented update sets the last ping to the message's report
  date. The doc comment says only "update the lastPing time".

## Findings

| source | as written | input that shows it | evidently intended | confidence | as-written member | corrected member |
|---|---|---|---|---|---|---|
| dbmgmt/dbmgmt.go:88-94 | both branches of `UpsertDevice` are empty placeholders and it returns nil | a healthy connection, an empty table and any message: nil is returned and the table still has no row for the device | update the last ping of an existing row, else insert one (doc comment at dbmgmt/dbmgmt.go:71-73) | high; not executed | DeviceStore.AsWrittenDropsNewDevice | DeviceStore.UpsertRecordsPing |
