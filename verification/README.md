# Weather app core, modelled in Dafny

A Dafny model of the sequential logic of an Android weather app for Taiwan
that reads the Central Weather Administration's open-data feeds:

- the **alert feed decoder** (`MainViewModel.getAlerts`, copied verbatim as
  `AlertWorker.get`): a forward-only pull loop over XML events that builds one
  `Alert` in place and appends it each time a `record` end tag closes;
- the **short-forecast decoder** (`MainViewModel.getShortForecast`): a second
  pull loop that buffers `value` texts per `weatherElement` and, when the
  element closes, folds them into the list its `elementName` selects (`T`,
  `Wx`, `AT`, `PoP6h`, `RH`), collecting `dataTime` entries only while the
  element name is `T`;
- the **alert poller** (`AlertWorker.doWork`): reads the stored fingerprint
  `alertsId` (0 when absent), then per cycle decodes the alerts, fingerprints
  the list, and when the fingerprint changed posts one notification per alert
  and only then stores the new fingerprint;
- the **saved locations** (`addLocation` and the list's load/store as one
  string, pairs joined by "`,`" and halves by "`!`") and the **screen stack**
  (`push`, `pop`, the current screen).

Files and modules:

| file | module | contents |
|---|---|---|
| results.dfy | `Results` | `Option`, `Result` (the source's exceptions become `Failure`) |
| text.dfy | `Text` | Kotlin `trim`, `toInt`, `split`, `joinToString`, `substringBefore`/`After` |
| records.dfy | `Records` | `Date`, `Alert`, `ShortForecast`, the date parser/formatter types |
| xml_pull.dfy | `XmlPull` | the XML event stream, `nextText()`, the generic pull loop and its reference fold |
| alert_feed.dfy | `AlertFeed` | the alert decoder and its declarative specification |
| forecast_feed.dfy | `ForecastFeed` | the short-forecast decoder, its buffer specification and the specification of every decoded list |
| storage.dfy | `Storage` | the `SharedPreferences` file as two maps |
| alert_poller.dfy | `AlertPoller` | one poller cycle as a transition with an effect log; the worker loop |
| locations.dfy | `Locations` | the saved-locations list and its stored string |
| screens.dfy | `Screens` | the navigation stack |

Modelling choices:

- The XML parser is replaced by the list of events it reports (`StartTag`,
  `Text`, `EndTag`, `EndDocument`, ...); reading past the end gives
  END_DOCUMENT. `nextText()` accepts TEXT then END_TAG (giving the text) or
  END_TAG alone (giving ""), throws otherwise, and leaves the parser on the
  END_TAG, which the loop then handles like any other end tag.
- Both decoders are instances of one loop, `XmlPull.Run`, driven by a
  `Policy` (which start tags are read with `nextText()`, what their text
  does, what an end tag does). `XmlPull.Fold` is an event-by-event reference
  semantics for the same loop; `XmlPull.RunIsFold` proves them equal, so the
  specifications are stated over positions in the event list.
- Dates are opaque (`Date(millis)`); `SimpleDateFormat.parse` and `format`
  are function parameters, a failed parse is `None`. The clock reading
  `Date()` is a parameter `now`, used for both date fields of the initial
  alert.
- `List.hashCode()` is a parameter `fingerprint: seq<Alert> -> Int32`; nothing
  is assumed about it, so collisions are allowed.
- The exceptions the decoders themselves can raise on a well-formed event
  list (`XmlPullParserException` from `nextText()`, `ParseException` from a
  date, `NumberFormatException` from `toInt()`) become `Failure` values. A
  failed decode returns no partial list. Exceptions raised by the parser's
  own `next()` are not part of the decoders' model (see "Left out").
- The poller's side effects are returned as a log of `Notify` and `Persist`
  effects in the order the worker performs them.
- The alert decoder does **not** start a fresh alert after a `record` end
  tag: the same `alert` variable is copied and overwritten for the whole
  document, so a field that a later record omits keeps the earlier record's
  value. The model follows the code (`AlertFeed.AlertCarriedOver`,
  `AlertFeed.RecordWithoutFieldsRepeats`) rather than a design that resets
  the record at each boundary.
- The short-forecast decoder's `timeList` is never cleared: `dataTime`
  entries read under any `T` element accumulate, and each `T` element
  publishes everything collected so far.

## Model

| member | source | states |
|---|---|---|
| `XmlPull.NextText` | app/src/main/java/rainbow/weather/MainViewModel.kt:168-175 | `nextText()` succeeds exactly on TEXT+END_TAG or a bare END_TAG, yields the text or "", and leaves the parser on that END_TAG |
| `XmlPull.End` | app/src/main/java/rainbow/weather/MainViewModel.kt:184 | the loop stops at the first END_DOCUMENT, or at the end of the events |
| `XmlPull.Step` | app/src/main/java/rainbow/weather/MainViewModel.kt:165-187 | one turn of the pull loop always moves forward, by one event or onto the end tag `nextText()` reached |
| `XmlPull.RunIsFold` | app/src/main/java/rainbow/weather/MainViewModel.kt:165-187 | the pull loop `XmlPull.Run` (each turn one `XmlPull.Step`) until END_DOCUMENT equals the event-by-event fold up to the first END_DOCUMENT, success and failure alike |
| `XmlPull.FoldFailurePersists` | app/src/main/java/rainbow/weather/MainViewModel.kt:165-187 | an exception ends the loop: once the fold fails it stays failed |
| `XmlPull.LastTextUnchanged` | app/src/main/java/rainbow/weather/MainViewModel.kt:168 | a stretch without a given start tag leaves the last text of that tag unchanged |
| `XmlPull.RunPreserves` | app/src/main/java/rainbow/weather/MainViewModel.kt:94-135 | any invariant kept by every handler of a decoder holds of its successful result |
| `AlertFeed.OnAlertText` | app/src/main/java/rainbow/weather/MainViewModel.kt:168-176 | the four field tags overwrite their field; only a date that does not parse fails; content is stored trimmed; other tags change nothing |
| `AlertFeed.OnAlertClose` | app/src/main/java/rainbow/weather/MainViewModel.kt:178-183 | a `record` end tag appends the alert as it stands and keeps it; other end tags append nothing |
| `AlertFeed.DecodeAlertsCorrect` | app/src/main/java/rainbow/weather/MainViewModel.kt:159-190 | the decoder `AlertFeed.DecodeAlerts` succeeds exactly when every field tag is readable, and then returns one alert per `record` end tag in document order, each with the last value of every field seen before it closed |
| `AlertFeed.FoldAlerts` | app/src/main/java/rainbow/weather/AlertWorker.kt:75-97 | at every position, the loop's state is the specification's alert under construction and list emitted so far |
| `AlertFeed.DecodeAlertsCount` | app/src/main/java/rainbow/weather/AlertWorker.kt:88-93 | exactly one alert per `record` end tag; other end tags append nothing |
| `AlertFeed.DecodeAlertsOrder` | app/src/main/java/rainbow/weather/AlertWorker.kt:69-100 | the alert of the k-th `record` end tag is entry k of the result and holds the fields in force at that tag |
| `AlertFeed.EmittedAt` | app/src/main/java/rainbow/weather/MainViewModel.kt:180 | the `record` end tag at position i emits entry number "records closed before i" |
| `AlertFeed.AlertCarriedOver` | app/src/main/java/rainbow/weather/MainViewModel.kt:164 | the alert under construction is never reset: without field tags it stays the same across `record` end tags and unknown tags |
| `AlertFeed.RecordWithoutFieldsRepeats` | app/src/main/java/rainbow/weather/MainViewModel.kt:180 | two `record` end tags with no field tag between them emit equal alerts |
| `AlertFeed.MalformedDateFails` | app/src/main/java/rainbow/weather/AlertWorker.kt:79-84 | an `issueTime` or `endTime` text that does not parse makes the whole decode fail |
| `AlertFeed.ContentTrimmed` | app/src/main/java/rainbow/weather/MainViewModel.kt:175 | every decoded alert's content has no leading or trailing whitespace |
| `AlertFeed.UndatedRecordTakesClock` | app/src/main/java/rainbow/weather/MainViewModel.kt:164 | a `record` that closes before any date tag emits the clock reading of the call (`Date()`), so the same feed decodes differently at two instants |
| `AlertFeed.DecodeClockFree` | app/src/main/java/rainbow/weather/MainViewModel.kt:159-190 | when every `record` closes after an `issueTime` and an `endTime` tag, decoding gives the same result (or the same error) at any two instants |
| `AlertFeed.DecodeAlertsFixedAgrees` | app/src/main/java/rainbow/weather/MainViewModel.kt:159-190 | the decoder started from a fixed instant succeeds exactly when the source's does, and equals it at every instant on feeds whose records carry both dates |
| `ForecastFeed.ParseAll` | app/src/main/java/rainbow/weather/MainViewModel.kt:110 | `values.map { it.toInt() }` succeeds exactly when every value is an `Int`, and then gives each value's number in order |
| `ForecastFeed.Doubled` | app/src/main/java/rainbow/weather/MainViewModel.kt:118-122 | for n values, 2n slots, slots 2i and 2i+1 both holding value i; fails on a non-number |
| `ForecastFeed.PairUp` | app/src/main/java/rainbow/weather/MainViewModel.kt:112-114 | `chunked(2) { it.last() to it.first() }`: ceil(n/2) pairs, pair i is (values[2i+1], values[2i]), a trailing odd value pairs with itself |
| `ForecastFeed.UnpairPairUp` | app/src/main/java/rainbow/weather/MainViewModel.kt:113 | for an even count, swapping each pair back and concatenating restores the values |
| `ForecastFeed.FoldElement` | app/src/main/java/rainbow/weather/MainViewModel.kt:106-127 | the element name selects the one list replaced (T also publishes the time list); any other name leaves the forecast unchanged |
| `ForecastFeed.OnForecastText` | app/src/main/java/rainbow/weather/MainViewModel.kt:96-103 | `dataTime` appends its parsed date (fails if it does not parse), `elementName` sets the name, `value` appends to the buffer; any other tag changes nothing |
| `ForecastFeed.OnForecastClose` | app/src/main/java/rainbow/weather/MainViewModel.kt:104-131 | a `weatherElement` end tag folds the buffer into the forecast by the current element name, failing exactly when that fold fails, and empties the buffer; other end tags change nothing |
| `ForecastFeed.PolicyPreservesInv` | app/src/main/java/rainbow/weather/MainViewModel.kt:96-131 | every handler keeps the published time list a prefix of the collected one and the probability slots paired |
| `ForecastFeed.DecodedSlotsPaired` | app/src/main/java/rainbow/weather/MainViewModel.kt:118-122 | any decoded forecast has an even number of probability slots, equal in pairs |
| `ForecastFeed.DecodeKeepsBuffers` | app/src/main/java/rainbow/weather/MainViewModel.kt:91-135 | during decoding the element name is the last one read, the buffer holds the `value` texts since the last `weatherElement` closed, and the time list holds the dates of exactly the `dataTime` tags seen while the name was `T` |
| `ForecastFeed.ElementCloseFolds` | app/src/main/java/rainbow/weather/MainViewModel.kt:106-128 | at a `weatherElement` end tag the new forecast is the fold of the element named before it, over exactly the `value` texts since the previous close and the dates collected so far |
| `ForecastFeed.FoldKeepsLists` | app/src/main/java/rainbow/weather/MainViewModel.kt:94-135 | at every position of a successful decode, each forecast list is what the feed before it says |
| `ForecastFeed.DecodedLists` | app/src/main/java/rainbow/weather/MainViewModel.kt:80-137 | a decoded forecast's `tList`, `atList`, `rhList` are the numbers of the last `T`, `AT`, `RH` element's values; `popList` holds each number of the last `PoP6h` element twice in a row; `wxList` is the last `Wx` element's values paired and swapped; `timeList` the dates read under `T`; an element that never closed leaves its list empty |
| `ForecastFeed.DecodeIsFold` | app/src/main/java/rainbow/weather/MainViewModel.kt:80-137 | `ForecastFeed.DecodeShortForecast` returns the forecast in the fold's state at END_DOCUMENT, and fails exactly when the fold does |
| `ForecastFeed.DecodeShortForecastSucceeds` | app/src/main/java/rainbow/weather/MainViewModel.kt:94-135 | `ForecastFeed.DecodeShortForecast` succeeds exactly when every read text is well formed, every `dataTime` under `T` parses and every value of a `T`, `AT`, `PoP6h` or `RH` element is an `Int`; unknown tags (`else -> next()`) never make it fail |
| `ForecastFeed.FoldSucceeds` | app/src/main/java/rainbow/weather/MainViewModel.kt:94-135 | at every position the fold has succeeded exactly when every event before it could be got past |
| `Text.Trim` | app/src/main/java/rainbow/weather/MainViewModel.kt:175 | `trim()` is the input minus its leading and trailing whitespace |
| `Text.TrimIdempotent` | app/src/main/java/rainbow/weather/AlertWorker.kt:85 | trimming a trimmed string changes nothing |
| `Text.ParseInt` | app/src/main/java/rainbow/weather/MainViewModel.kt:116 | `toInt()` accepts an optional sign and digits whose value fits in 32 bits, and nothing else |
| `Text.ParseShowInt` | app/src/main/java/rainbow/weather/MainViewModel.kt:124 | every 32-bit integer written in decimal reads back as itself |
| `Text.SplitJoin` | app/src/main/java/rainbow/weather/MainViewModel.kt:42-51 | splitting a join gives back the pieces when no piece holds the separator's pivot character |
| `Text.SubstringsOfJoined` | app/src/main/java/rainbow/weather/MainViewModel.kt:43 | `substringBefore`/`substringAfter` take `x + sep + y` apart when `x` lacks the separator's first character |
| `Storage.PutInt` | app/src/main/java/rainbow/weather/AlertWorker.kt:48 | after `putInt` the slot reads back the value and every other slot is untouched |
| `Storage.PutString` | app/src/main/java/rainbow/weather/MainViewModel.kt:50-52 | after `putString` the slot reads back the value and every other slot is untouched |
| `Locations.DecodeEncode` | app/src/main/java/rainbow/weather/MainViewModel.kt:39-53 | `Locations.Decode` of `Locations.Encode` gives back a non-empty list of locations without backticks or commas: the list survives being stored as one string and read back |
| `Locations.AddLocation` | app/src/main/java/rainbow/weather/MainViewModel.kt:47-53 | a listed location changes neither list nor storage; another is appended at the end and the whole list is stored, nothing else changes |
| `Locations.AddLocationIdempotent` | app/src/main/java/rainbow/weather/MainViewModel.kt:48 | adding the same location twice equals adding it once |
| `Locations.InitConsistent` | app/src/main/java/rainbow/weather/MainViewModel.kt:39-45 | the list of `Locations.Init` at start-up is what the stored string reads as (empty when nothing is stored) |
| `Locations.AddLocationConsistent` | app/src/main/java/rainbow/weather/MainViewModel.kt:39-53 | adding keeps the stored string reading back as the list on screen |
| `Screens.InitialStack` | app/src/main/java/rainbow/weather/MainViewModel.kt:192 | the stack starts as the home screen alone, which is current |
| `Screens.Current` | app/src/main/java/rainbow/weather/MainViewModel.kt:193 | the current screen is the last pushed, none on an empty stack |
| `Screens.Push` | app/src/main/java/rainbow/weather/MainViewModel.kt:195-197 | the pushed screen becomes current and the rest stays below it |
| `Screens.Pop` | app/src/main/java/rainbow/weather/MainViewModel.kt:199-201 | fails exactly on an empty stack, otherwise drops only the current screen |
| `Screens.PopAfterPush` | app/src/main/java/rainbow/weather/MainViewModel.kt:195-201 | a pop right after a push restores the stack |
| `Screens.PushAfterPop` | app/src/main/java/rainbow/weather/MainViewModel.kt:195-201 | pushing back the screen just popped restores the stack |
| `Screens.PushesThenPops` | app/src/main/java/rainbow/weather/MainViewModel.kt:192-201 | n pushes followed by n pops return to the starting stack |
| `Screens.BackToHome` | app/src/main/java/rainbow/weather/MainViewModel.kt:192-201 | from the initial stack, as many pops as pushes bring back the home screen as current |
| `AlertPoller.Start` | app/src/main/java/rainbow/weather/AlertWorker.kt:32 | the held fingerprint is the stored one, 0 when nothing is stored |
| `AlertPoller.NotifyAll` | app/src/main/java/rainbow/weather/AlertWorker.kt:37-46 | one notification per alert, in list order |
| `AlertPoller.ReadTitleBack` | app/src/main/java/rainbow/weather/AlertWorker.kt:41 | the title that `AlertPoller.NotificationFor` builds is "【" description "・" formatted issue time "】": both parts can be read back from it |
| `AlertPoller.ReadBodyBack` | app/src/main/java/rainbow/weather/AlertWorker.kt:42 | the body that `AlertPoller.NotificationFor` builds is content "(~ " formatted end time ")": both parts can be read back from it |
| `AlertPoller.Fetch` | app/src/main/java/rainbow/weather/AlertWorker.kt:34 | a failed download or decode aborts the cycle; otherwise the cycle sees the decoded list |
| `AlertPoller.Decide` | app/src/main/java/rainbow/weather/AlertWorker.kt:35-49 | an unchanged fingerprint does nothing; a changed one notifies every alert in order, then holds and stores the new fingerprint as the last effect |
| `AlertPoller.DecideKeepsSynced` | app/src/main/java/rainbow/weather/AlertWorker.kt:47-48 | the held and stored fingerprints stay equal across a cycle |
| `AlertPoller.SecondCycleQuiet` | app/src/main/java/rainbow/weather/AlertWorker.kt:33-50 | a second cycle over the same list emits nothing and changes nothing |
| `AlertPoller.PersistIsLast` | app/src/main/java/rainbow/weather/AlertWorker.kt:36-49 | the fingerprint is written once, after every notification of the cycle |
| `AlertPoller.FailedCycleKeepsStore` | app/src/main/java/rainbow/weather/AlertWorker.kt:33-34 | an `AlertPoller.Cycle` that throws ends the worker loop `AlertPoller.Loop` with nothing notified and nothing stored |
| `AlertPoller.RestartResumes` | app/src/main/java/rainbow/weather/AlertWorker.kt:30-33 | a worker `AlertPoller.Work` restarted from the stored preferences continues exactly as the previous one's `AlertPoller.Loop` would have |
| `AlertPoller.LoopStoresHeldId` | app/src/main/java/rainbow/weather/AlertWorker.kt:32-51 | across a run only the fingerprint slot changes (every other integer and every string slot reads as before), and it ends holding the last fingerprint held |
| `AlertPoller.UnchangedFeedNotifiedAgain` | app/src/main/java/rainbow/weather/AlertWorker.kt:33-49 | the same download, fetched a minute later, is notified again when a record lacks its dates, because the decoded list takes the clock reading and its fingerprint changes |
| `AlertPoller.RepeatedDatedFeedQuiet` | app/src/main/java/rainbow/weather/AlertWorker.kt:33-49 | a repeated download whose records all carry both dates is quiet the second time, whatever the two clock readings |
| `AlertPoller.FixedRepeatQuiet` | app/src/main/java/rainbow/weather/AlertWorker.kt:33-49 | with the decoder started from a fixed instant, a repeated download is always quiet the second time |

## Left out

- HTTP transport (OkHttp request building and execution, the API key, the
  county-to-dataset lookup `counties.first { ... }` and the query URL): a
  download is a parameter, an event list or `None` for a failed call.
- `XmlPullParser` internals (tokenising, entity decoding, merging adjacent
  text): the parser is replaced by the event list it reports.
- Exceptions from the parser's `next()` and from reading the response body
  (`XmlPullParserException` on malformed or truncated XML, `IOException`
  when the stream fails mid-read): the decoders assume the event list is
  what a successful parse reports, and reading past its end gives
  END_DOCUMENT, so a truncated list decodes where the real parser would
  throw. In the poller these failures are represented only as a failed
  download (`None`).
- The asynchronous write of `edit().putInt(...).apply()` and
  `putString(...).apply()`: the preferences are modelled as written at once
  and durably, so a process killed before the write reaches the disk is not
  modelled; `AlertPoller.RestartResumes` relies on this.
- `SimpleDateFormat` parsing and formatting and calendar arithmetic: both
  are function parameters.
- The clock: `Date()` is the parameter `now`. The source reads the clock
  twice for the initial alert; the model uses one reading for both fields.
- Storage.PutInt, Storage.PutString: integers and strings are kept in two
  separate maps, whereas one `SharedPreferences` file has a single key space
  in which `putInt` replaces a string under the same key; the app never
  uses one key for both kinds (`alertsId` is an integer, `locations` a
  string), so the frames stated here hold for every key it uses.
- `List.hashCode()`: an uninterpreted fingerprint, so the order and content
  sensitivity of Java's list hash is not modelled and collisions are allowed.
- Notification ids (`Random.nextInt()`), the notification channel, icon and
  style: only the title and text of each notification are kept.
- Coroutines and suspension (`withContext`, `viewModelScope.launch`,
  `alertsFlow`, `delay(60000)`): the worker's endless loop is a finite list
  of cycles, each with its own download and clock reading.
- The Compose UI screens, `MainActivity`, the county/township gazetteer
  loading and JSON wrappers: UI rendering and library plumbing with no
  logic of their own.
- The `location` and `shortForecast` state fields of the view model and
  `updateShortForecast`: plain assignments of a decoder's result.
- Text.ParseInt: accepts ASCII digits only, whereas Kotlin's `toInt()` also
  accepts other Unicode decimal digits.
- Text.Trim: uses a fixed list of whitespace characters equal to Kotlin's
  `isWhitespace` for the characters it lists; it is not derived from the
  Unicode database.
- Locations.DecodeEncode: the round trip is proved only for non-empty lists
  whose names contain no backtick or comma; an empty list is never stored,
  and a name with those characters can break the stored string apart.
- Screens.Pop: `removeLast()` on an empty stack throws; the model returns
  `None` instead of raising.

## Findings

| source | as written | input that shows it | evidently intended | confidence | as-written member | corrected member |
|---|---|---|---|---|---|---|
| app/src/main/java/rainbow/weather/MainViewModel.kt:164 (and app/src/main/java/rainbow/weather/AlertWorker.kt:74) | the alert under construction starts as `Alert("", Date(), Date(), "")`, so a record that closes before its `issueTime`/`endTime` tags carries the clock reading of the call; the decoded list, and its `hashCode()`, then change from one call to the next | the feed `</record>` decoded at instants 1 and 2 gives `[Alert("", 1, 1, "")]` and `[Alert("", 2, 2, "")]`; in the worker, the same download a minute later is notified again | decoding the same feed twice gives equal results, so an unchanged feed is notified once | medium, not executed | `AlertFeed.UndatedRecordTakesClock`, `AlertPoller.UnchangedFeedNotifiedAgain` | `AlertFeed.DecodeAlertsFixed` with `AlertFeed.DecodeAlertsFixedAgrees` and `AlertPoller.FixedRepeatQuiet`; `AlertFeed.DecodeClockFree` bounds the as-written behaviour to undated records |

The poller's `AlertPoller.Cycle` keeps the decoder as written, so that its
lemmas describe the app as it runs; `AlertPoller.FixedCycle` is the same
cycle over the corrected decoder.
