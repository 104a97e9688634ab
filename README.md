# NullRiderCore logger, toast queue and API-client logic in Dafny

NullRiderCore is a small Swift package of app support code. Most of it wraps
platform APIs. This project models the parts that contain logic:

- **Logger** (`Logging`, `LogLevels`). One `log` call builds a caller tag. It
  echoes `[LEVEL] tag message` to the console when the debug flag is set,
  whatever the level. If the level is at least the minimum, it appends the
  timestamped entry to the day's log file and to an in-memory buffer. The
  buffer holds at most 500 entries and drops the oldest first.
  `clearInMemoryLog` empties the buffer and leaves the file alone.
  `LogLevel` is a five-step ranked enum. Its integer decoder falls back to
  `info`.
- **Toast queue** (`Toasts`). `show` displays a request at once when no toast
  is up, and otherwise queues it. When the display time ends, the message and
  the busy flag are cleared and the head of the queue is taken. After a gap,
  that request is displayed.
- **API client** (`Api`). `init` merges the caller's default headers under
  the JSON content type, and keys that are already present win. A request's
  headers are added the same way, and then the optional bearer token
  overrides `Authorization`. Only statuses 200–299 are accepted.
- **Bookmarks** (`Bookmarks`). A bookmark record has defaults
  (`taggedByUser = true`, `note = nil`). `addBookmark` inserts exactly one
  new record into a model context.
- **Classifiers** (`Environment`, `LogViewColors`, `BookmarkListColors`). These
  are the environment flags and URLs, the log view's colour for a log line
  (chosen by its most severe label), and the bookmark list's colour for each
  severity.

Shared helpers: `Wrappers` (optionals and thrown errors as values), `Text`
(decimal rendering of integers, substring search, splitting on `/`) and
`Palette` (the colours).

Objects whose fields the source updates in place are classes: `Logger`,
`ToastManager`, `UserLogBookmark` and the `ModelContext`. Their methods state
the whole new state. `Log`, `Show` and the toast callbacks are specified
against pure functions (`Remember`, `AppendedFile`, `AfterShow`,
`AfterTimeout`, `Displayed`). The lemmas about those functions carry the
properties that matter:

- the buffer keeps exactly the newest 500 entries over any series of calls;
- toasts are displayed in the order of their `show` calls;
- a logged line is never coloured below its own level.

Values are modelled as datatypes: `APIClient` is a Swift struct, and the
levels, environments and requests are enums and records.

The environment enters as parameters: the timestamp, the date used in the
file name, whether a file write succeeds, the clock for `savedAt`, the
resolved URL and the network exchange. The console is a sequence of printed
lines. The log file is its exact text, with `None` standing for a file that
does not exist yet.

A few facts about the logger that the model keeps:

- The log file is named `<app name>_<yyyy-MM-dd>.txt` (Logger.swift:45).
- The console echo depends on `settings.debugMode`.
- The filter reads the logger's `minimumLogLevel`, which is decoded from the
  stored setting once, in `init`.

`Logger.swift` reads `settings.debugMode`, but `AppSettingsManager` declares
`verboseLogging` for that purpose. The model uses a plain boolean `debugMode`,
and `DefaultSettings` gives it `verboseLogging`'s default (`true`).

## Model

| member | source | states |
|---|---|---|
| `LogLevels.Rank` | Sources/NullRiderCore/Logger.swift:150-158 | each level's rank lies in 0..4 |
| `LogLevels.Less` | Sources/NullRiderCore/Logger.swift:146-148 | `<` compares ranks; a level is never below itself (the order facts are in `LessIsStrictTotalOrder`) |
| `LogLevels.AtLeast` | Sources/NullRiderCore/Logger.swift:76 | the `>=` of the filter is "not below", so every level passes a minimum equal to itself |
| `LogLevels.RankInjective` | Sources/NullRiderCore/Logger.swift:150-158 | distinct levels have distinct ranks |
| `LogLevels.LessIsStrictTotalOrder` | Sources/NullRiderCore/Logger.swift:146-158 | `<` (rank comparison) is irreflexive, asymmetric and transitive, and relates any two distinct levels |
| `LogLevels.LevelChain` | Sources/NullRiderCore/Logger.swift:139-158 | debug < info < warning < error < critical |
| `LogLevels.AtLeastIsRankComparison` | Sources/NullRiderCore/Logger.swift:146-148 | `>=`, derived from `<` as `Comparable` does, holds exactly when the rank is not smaller |
| `LogLevels.From` | Sources/NullRiderCore/Logger.swift:160-169 | for 0 ≤ i ≤ 4 the result has rank i; every other integer decodes to `info` |
| `LogLevels.FromRank` | Sources/NullRiderCore/Logger.swift:150-169 | decoding a level's rank gives back that level |
| `LogLevels.RawValue` | Sources/NullRiderCore/Logger.swift:139-144 | each case's raw value is a non-empty run of lower-case letters |
| `LogLevels.Label` | Sources/NullRiderCore/Logger.swift:69-75 | the label written in every line is non-empty and all capitals, so it holds no bracket |
| `LogLevels.LabelIsUppercasedRawValue` | Sources/NullRiderCore/Logger.swift:139-144 | the label in log lines is the case's raw value in capitals (`CRITICAL`, …) |
| `LogLevels.LabelInjective` | Sources/NullRiderCore/Logger.swift:139-144 | the five labels are pairwise distinct |
| `Text.IntToString` | Sources/NullRiderCore/Logger.swift:62-65 | a line number renders as a non-empty string: a minus sign only for negatives, digits otherwise |
| `Text.NatToStringRoundTrip` | Sources/NullRiderCore/Logger.swift:62-65 | reading the rendered digits back gives the number |
| `Text.IntToStringInjective` | Sources/NullRiderCore/Logger.swift:62-65 | different line numbers render differently |
| `Text.ContainsIffOccurs` | Sources/NullRiderCore/LogView.swift:45-53 | `contains` holds exactly when the substring occurs at some position (both directions) |
| `Text.Components` | Sources/NullRiderCore/Logger.swift:64 | splitting on `/` gives at least one piece, so `.last` always exists, and no piece holds `/` |
| `Text.JoinComponents` | Sources/NullRiderCore/Logger.swift:64 | joining the pieces with `/` gives the path back |
| `Text.LastComponentIsFinalSegment` | Sources/NullRiderCore/Logger.swift:64 | the last piece is the suffix after the final `/`, or the whole string when there is none |
| `Text.LastComponentWithoutSeparator` | Sources/NullRiderCore/Logger.swift:64 | a file name without `/` is used whole |
| `Logging.CallerTag` | Sources/NullRiderCore/Logger.swift:60-66 | the tag is bracketed; in full form the file id follows the opening bracket (the short form is described by `ShortCallerTag`) |
| `Logging.ShortCallerTag` | Sources/NullRiderCore/Logger.swift:60-66 | the short tag is `[name:line]`, where name is the last `/`-free segment of the file, or the whole file when it has no `/` |
| `Logging.CallerTagExample` | Sources/NullRiderCore/Logger.swift:60-66 | a call from line 42 of `Sources/Foo/Bar.swift` gets the short tag `[Bar.swift:42]` |
| `Logging.ConsoleLine` | Sources/NullRiderCore/Logger.swift:69 | the `[LEVEL] tag message` line; its layout is given by `ConsoleLineLayout` |
| `Logging.ConsoleLineLayout` | Sources/NullRiderCore/Logger.swift:69 | the line opens with `[LEVEL]`, carries the tag after one space, ends with the message, and has exactly four extra characters |
| `Logging.Entry` | Sources/NullRiderCore/Logger.swift:75 | the stored entry; `EntryIsStampedConsoleLine` and `EntryCarriesLabel` state its form |
| `Logging.EntryIsStampedConsoleLine` | Sources/NullRiderCore/Logger.swift:69-75 | the stored entry is the console line behind `[timestamp] ` |
| `Logging.EntryCarriesLabel` | Sources/NullRiderCore/Logger.swift:75 | every entry holds `[LEVEL]` for its own level, right after the timestamp |
| `Logging.AppendedFile` | Sources/NullRiderCore/Logger.swift:79-88 | an existing file gets the data appended and keeps its old text as a prefix; a missing file is created holding exactly the data; a failed write changes nothing |
| `Logging.Remember` | Sources/NullRiderCore/Logger.swift:93-96 | one update ends with the new entry, grows the buffer by one below capacity, and keeps its length at and above it |
| `Logging.RememberKeepsNewest` | Sources/NullRiderCore/Logger.swift:93-96 | from a buffer within capacity, one update gives the last ≤ 500 of old + [entry]; the length stays ≤ 500 and the last element is the entry |
| `Logging.RememberAllKeepsNewest` | Sources/NullRiderCore/Logger.swift:93-96 | after any series of accepted entries, the buffer is the newest 500 of old buffer + entries, in call order |
| `Logging.FloodKeepsLast500` | Sources/NullRiderCore/Logger.swift:40 | more than 500 entries into an empty buffer leave exactly the last 500 |
| `Logging.Logger.constructor` | Sources/NullRiderCore/Logger.swift:42-51 | the file name is `<app>_<today>.txt`; `minimumLogLevel == From(settings.minimumLogLevel)`; the buffer and console start empty |
| `Logging.Logger.Log` | Sources/NullRiderCore/Logger.swift:53-101 | the console line is added iff the debug flag is set, whatever the level; below the minimum, file and buffer are unchanged; otherwise the file gets `entry + "\n"` and the buffer is the newest 500 of old + [entry], ending with the entry |
| `Logging.Logger.Record` | Sources/NullRiderCore/Logger.swift:73-99 | the queued part of `log`: below the minimum, file and buffer are unchanged; otherwise the file gets `entry + "\n"` and the buffer is the newest 500 of old + [entry], ending with the entry |
| `Logging.Logger.WriteToFile` | Sources/NullRiderCore/Logger.swift:79-88 | the file becomes `AppendedFile` of the old file; nothing else may change |
| `Logging.Logger.AppendToBuffer` | Sources/NullRiderCore/Logger.swift:92-97 | the buffer stays within capacity and becomes the newest 500 of old + [entry]; nothing else may change |
| `Logging.Logger.GetLogFileURL` | Sources/NullRiderCore/Logger.swift:124-126 | returns the file name fixed at construction |
| `Logging.Logger.ClearInMemoryLog` | Sources/NullRiderCore/Logger.swift:134-136 | the buffer becomes empty; only that field may change, so the file is untouched |
| `Toasts.Displayed` | Sources/NullRiderCore/ToastManager.swift:41-46 | the busy flag is set, the request's message, position and animated flag are published, and the queue is kept |
| `Toasts.AfterShow` | Sources/NullRiderCore/ToastManager.swift:24-39 | while busy, the request goes to the end of the queue and the published fields stay; while idle, the queue stays and the request is displayed |
| `Toasts.AfterTimeout` | Sources/NullRiderCore/ToastManager.swift:48-62 | message becomes nil and the busy flag false; a non-empty queue loses exactly its head, which is the next request; an empty queue schedules nothing |
| `Toasts.StepsKeepConsistent` | Sources/NullRiderCore/ToastManager.swift:41-50 | every step keeps "a message is published iff a toast is showing" |
| `Toasts.ShowAllWhileBusy` | Sources/NullRiderCore/ToastManager.swift:32-34 | while busy, a series of `show` calls appends its requests to the queue in call order |
| `Toasts.ShowAllFromInitial` | Sources/NullRiderCore/ToastManager.swift:24-46 | from the initial state, the first request is displayed and the rest wait in call order |
| `Toasts.RunDisplaysQueueInOrder` | Sources/NullRiderCore/ToastManager.swift:52-58 | n timeout-and-gap cycles display the first n queued requests in order and leave the rest of the queue |
| `Toasts.CycleOnEmptyQueue` | Sources/NullRiderCore/ToastManager.swift:60-62 | a timeout with an empty queue schedules nothing and leaves the manager idle |
| `Toasts.DisplayedInShowOrder` | Sources/NullRiderCore/ToastManager.swift:32-58 | with no `show` during the gaps, requests are displayed in the order of their `show` calls, after which the manager is idle with an empty queue |
| `Toasts.ShowWhileBusyDisplaysInOrder` | Sources/NullRiderCore/ToastManager.swift:24-58 | from any busy state, `show` calls join behind the waiting requests, and the following cycles display all of them in that order and empty the queue |
| `Toasts.ToastManager.constructor` | Sources/NullRiderCore/ToastManager.swift:14-22 | no message, bottom position, animated, idle, empty queue |
| `Toasts.ToastManager.Show` | Sources/NullRiderCore/ToastManager.swift:24-39 | new state is `AfterShow` of the old; busy: request appended, message/position/isAnimated unchanged; idle: queue unchanged, busy, fields copied from the request |
| `Toasts.ToastManager.ShowNextToast` | Sources/NullRiderCore/ToastManager.swift:41-47 | new state is `Displayed(old, request)` |
| `Toasts.ToastManager.OnDisplayTimeout` | Sources/NullRiderCore/ToastManager.swift:48-56 | message nil, not busy; returns the removed head (or nothing for an empty queue) and the rest of the queue in order |
| `Toasts.ToastManager.OnGapElapsed` | Sources/NullRiderCore/ToastManager.swift:57-59 | the request taken at the timeout is displayed |
| `Api.MergeKeepingCurrent` | Sources/NullRiderCore/APIClient.swift:31 | the union of the keys; a key already present keeps its value, and a new key gets the other map's value |
| `Api.NewClient` | Sources/NullRiderCore/APIClient.swift:15-32 | `Content-Type` is `application/json` even when the caller passes another one; every other caller header is kept with its value |
| `Api.CombinedHeaders` | Sources/NullRiderCore/APIClient.swift:49-52 | defaults are never overridden by request headers; request headers fill only missing keys; with the token on and present, `Authorization` is `Bearer <token>`, and without it nothing is added |
| `Api.DefaultsWin` | Sources/NullRiderCore/APIClient.swift:49 | a default header other than `Authorization` reaches the request unchanged |
| `Api.TokenOnlyTouchesAuthorization` | Sources/NullRiderCore/APIClient.swift:50-52 | without the token the headers are the plain merge; with it, they differ from the merge only at `Authorization` |
| `Api.ContentTypeAlwaysJson` | Sources/NullRiderCore/APIClient.swift:15-49 | every request from a client built by `init` sends `Content-Type: application/json` |
| `Api.BuildRequest` | Sources/NullRiderCore/APIClient.swift:45-58 | the method is the given one (`POST` by default); the headers copied one by one equal the combined headers; a body is present iff a payload is given |
| `Api.CheckResponse` | Sources/NullRiderCore/APIClient.swift:63-73 | a non-HTTP response is a bad server response; accepted iff 200 ≤ status < 300; otherwise the error has code = status and quotes the body, or "No response body" |
| `Api.RejectedCarriesStatus` | Sources/NullRiderCore/APIClient.swift:67-72 | every rejected status is reported as an HTTP error with that status as its code |
| `Api.SendRequest` | Sources/NullRiderCore/APIClient.swift:34-74 | an unresolvable URL fails with bad URL and sends nothing; otherwise the built request is sent and the response checked |
| `Bookmarks.UserLogBookmark.constructor` | Sources/NullRiderCore/UserLogBookmark.swift:47-65 | every argument is stored unchanged; by default `taggedByUser` is true and `note` is nil |
| `Bookmarks.UserLogBookmark.AddBookmark` | Sources/NullRiderCore/UserLogBookmark.swift:79-97 | the context grows by exactly one fresh record and the earlier records stay; the record holds the given line, severity, file, function, line number and note, is user-tagged, and is saved now |
| `Bookmarks.ModelContext.Insert` | Sources/NullRiderCore/UserLogBookmark.swift:96 | the record is appended unless already registered |
| `Environment.IsDebugLoggingEnabled` | Sources/NullRiderCore/EnvironmentConfig.swift:18-23 | true iff the environment is development |
| `Environment.ApiBaseURL` | Sources/NullRiderCore/EnvironmentConfig.swift:26-32 | every base URL is an `https://` URL |
| `Environment.BaseURLsDistinct` | Sources/NullRiderCore/EnvironmentConfig.swift:26-32 | the three environments have pairwise-distinct base URLs |
| `Environment.ShowBetaFeatures` | Sources/NullRiderCore/EnvironmentConfig.swift:35-41 | false iff the environment is production |
| `Environment.DebugLoggingImpliesBeta` | Sources/NullRiderCore/EnvironmentConfig.swift:18-41 | wherever debug logging is enabled, beta features are shown |
| `LogViewColors.Tag` | Sources/NullRiderCore/LogView.swift:45-53 | the searched strings are exactly `[` + the level's label + `]` |
| `LogViewColors.LineColor` | Sources/NullRiderCore/LogView.swift:44-57 | the log view never uses purple; by `LineColorFollowsMostSevereTag` the first label found decides, which is the most severe one present |
| `LogViewColors.LineColorFollowsMostSevereTag` | Sources/NullRiderCore/LogView.swift:44-57 | a line gets the colour of the most severe label it contains, whatever less severe labels are present; green iff it holds none of the five |
| `LogViewColors.CriticalIsRed` | Sources/NullRiderCore/LogView.swift:45-46 | a line containing `[CRITICAL]` is red, whatever else it contains |
| `LogViewColors.TagColor` | Sources/NullRiderCore/LogView.swift:45-54 | no level is coloured green (the fallback) or purple |
| `LogViewColors.TagColorInjective` | Sources/NullRiderCore/LogView.swift:45-54 | the five level colours are pairwise distinct |
| `LogViewColors.LoggedLineColor` | Sources/NullRiderCore/LogView.swift:44-57 | a line the logger wrote is never green, and is coloured for its own level or a more severe one |
| `BookmarkListColors.SeverityColor` | Sources/NullRiderCore/LogBookmarkListView.swift:47-55 | total over the levels (debug gray, info blue, warning orange, error red, critical purple); never green or yellow; takes only the severity |
| `BookmarkListColors.SeverityColorInjective` | Sources/NullRiderCore/LogBookmarkListView.swift:48-54 | the five severities map to five different colours |
| `BookmarkListColors.ViewsAgreeBelowWarning` | Sources/NullRiderCore/LogBookmarkListView.swift:47-55 | the bookmark list and the log view colour a level alike exactly for debug and info |

## Left out

- The dispatch-queue hops in `Logger.log` (the `logQueue` and main-queue
  blocks) and in `ToastManager`, and thread safety. Each call is one atomic,
  sequential step, so interleavings of concurrent callers are not modelled.
- Real file I/O, `DateFormatter` and `Date()`. The timestamp, the day used in
  the file name, a write's success and `savedAt`'s clock are parameters.
  UTF-8 encoding of the entry is taken to succeed, as it always does for a
  Swift `String`.
- `Logging.Logger.GetLogFileURL`: the documents directory is dropped. The
  method returns the file name only, not `directory.appendingPathComponent(filename)`.
- `Logging.Logger.Log`: the file is modelled as text. A failing
  `FileHandle(forWritingTo:)` and a failing `Data.write` are the same
  parameter.
- `logDebug`, `logInfo`, `logWarning`, `logError`, `logCritical`. They only
  forward to `log` with a fixed level, and `Log` takes the level as a
  parameter.
- `print` calls in `ToastManager`. They are diagnostics that change no state.
- The toast `duration` and the 0.5 s delays. These are `Double` timers;
  `OnDisplayTimeout` and `OnGapElapsed` are the callbacks, and the caller
  decides when they fire.
- `Toasts.DisplayedInShowOrder`: the order is proved only for runs with no
  `show` arriving in a gap. A `show` during a gap displays at once, and the
  request taken at the timeout then replaces it.
- `Api.BuildRequest`: `URLRequest.setValue(_:forHTTPHeaderField:)` treats
  header names case-insensitively. The model treats them as exact strings.
- URL resolution, `URLSession`, and JSON encoding and decoding. The resolved
  URL is an input, the network is the `exchange` function, the body is the
  payload value itself, and the response body is its text when it decodes as
  UTF-8. An empty body decodes to the empty string, so its error reads
  `HTTP n: ` and not "No response body".
- `Bookmarks.ModelContext.Insert`: SwiftData persistence, `@Query` sorting
  and deletion are not modelled. The context is the ordered list of inserted
  records.
- `EnvironmentConfig.current`: its value comes from `AppInfo`, so the
  environment is a parameter.
- `ToastOverlay` clearing `message` 2.5 s after display while
  `isShowingToast` stays set. The model covers the manager's own steps only,
  so `Consistent` holds over those steps and not over the running app.
- Unicode grapheme clustering. Strings are sequences of characters. Also,
  `Text.Contains` holds for the empty needle, where Foundation answers false;
  the core only searches for the five non-empty labels.
- SwiftUI views and rendering, including the `LogView` and
  `LogBookmarkListView` bodies and `onDelete`, `ToastView`, `ToastOverlay`,
  the themed components and `PrimaryButton`.
- `FileStorageHelper`, `KeychainHelper`, `SwiftDataController`,
  `DateFormatterHelper`, the rest of `AppSettingsManager` and `sync.py`. They
  are wrappers over platform services or a host script.
