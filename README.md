# Ghostty Android glue: todo widget, navigation mailbox, channel handlers

A Dafny model of the three pieces of logic in the Android side of the Ghostty app:

- **The todo home-screen widget refresh** (`updateAppWidget`, present twice with identical logic in
  `com/example/flutter_application_1` and `com/ghostty/app`). It decodes three preference strings
  joined with `"|||"`, writes the pending-count label, hides the five fixed rows and then either shows
  the "no todos" message or fills the rows that have both a title and an id, styling each as completed
  (gray, struck through, checked box) or open (white, plain, unchecked box).
- **The pending-navigation mailbox** of `MainActivity`: an "open the todo editor" intent is forwarded on
  the navigation method channel at once when the channel exists, otherwise parked in a single slot
  (newest wins) and sent exactly once when the engine configuration creates the channel.
- **The method-call handlers** of the `ghostty/secure` and `ghostty/media` channels: which methods are
  handled, what each call is answered and which platform action it starts.

Files:

- `wrappers.dfy` — `Option`, standing for Kotlin's nullable values.
- `todo_encoding.dfy` — module `TodoEncoding`: Kotlin's `split("|||")` and its inverse `joinToString`, the
  empty-string rule, and the round trips between them. A list is *separable* when no entry holds the
  separator and no entry but the last ends in a vertical bar; exactly those lists survive a round trip.
- `count_label.dfy` — module `CountLabel`: `toIntOrNull` (ASCII decimal, optional sign, 32-bit range)
  and the summary label.
- `todo_widget.dfy` — module `TodoWidget`: the row records, the class `WidgetViews` standing for the
  platform view tree (an `array` of five rows plus the empty-message flag and the label), the method
  `UpdateAppWidget` with the hide loop and the populate loop, proved equal to the pure refresh `Project`,
  and the properties of `Project`; module `TodoWidgetExample`: a worked refresh.
- `navigation.dfy` — module `Navigation`: the class `MainActivity` with the two navigation fields and
  the channel abstracted as the sequence of calls sent on it, the pure step functions that specify its
  methods, and lemmas over whole event sequences.
- `channel_dispatch.dfy` — module `ChannelDispatch`: the two handlers as pure functions to a reply and
  an effect tag.

Both copies of `GhosttyTodoWidgetProvider.kt` hold the same refresh line for line (only comments and
line numbers differ), so the widget is modelled once; the table below cites one copy or the other.

The view tree of a refresh is fresh from the layout, whose initial row contents are not known here, so
`UpdateAppWidget` is proved for any prior row contents: a row it does not fill is only made hidden
(its old text and style stay, invisible), exactly as the provider only sets it to `GONE`. Properties
about text and style are therefore stated for visible rows.

## Model

| member | source | states |
|---|---|---|
| TodoEncoding.Split | android/app/src/main/kotlin/com/example/flutter_application_1/GhosttyTodoWidgetProvider.kt:64-66 | splitting on the separator always yields at least one piece (empty pieces kept); with JoinSplit, SplitSeparable and SplitUnique this fixes the result |
| TodoEncoding.Decode | android/app/src/main/kotlin/com/example/flutter_application_1/GhosttyTodoWidgetProvider.kt:64-66 | a preference decodes to no entries exactly when it is the empty string |
| TodoEncoding.JoinSplit | android/app/src/main/kotlin/com/example/flutter_application_1/GhosttyTodoWidgetProvider.kt:64 | joining the pieces of a split with the separator gives back the original string |
| TodoEncoding.DecodeNonEmpty | android/app/src/main/kotlin/com/example/flutter_application_1/GhosttyTodoWidgetProvider.kt:64-66 | a non-empty preference decodes to at least one entry, and the entries join back to it |
| TodoEncoding.SplitFirstIsPrefix | android/app/src/main/kotlin/com/ghostty/app/GhosttyTodoWidgetProvider.kt:58 | the first piece of a split is a prefix of the input |
| TodoEncoding.SplitPiecesDelimFree | android/app/src/main/kotlin/com/ghostty/app/GhosttyTodoWidgetProvider.kt:58-60 | every occurrence of the separator is cut: no decoded entry contains the separator |
| TodoEncoding.SplitLeftmost | android/app/src/main/kotlin/com/example/flutter_application_1/GhosttyTodoWidgetProvider.kt:64-66 | the scan cuts at the leftmost separator: no piece but the last ends in a vertical bar |
| TodoEncoding.SplitSeparable | android/app/src/main/kotlin/com/example/flutter_application_1/GhosttyTodoWidgetProvider.kt:64-66 | the pieces of every split are separable: none holds the separator and none but the last ends in a vertical bar |
| TodoEncoding.SplitDelimFree | android/app/src/main/kotlin/com/ghostty/app/GhosttyTodoWidgetProvider.kt:58-60 | a string without the separator splits into itself alone |
| TodoEncoding.SplitEntryThenDelim | android/app/src/main/kotlin/com/ghostty/app/GhosttyTodoWidgetProvider.kt:58-60 | a separable entry followed by the separator is cut off exactly there, and the rest is split on its own |
| TodoEncoding.SplitJoin | android/app/src/main/kotlin/com/ghostty/app/GhosttyTodoWidgetProvider.kt:58-60 | splitting a join of separable entries gives the entries back |
| TodoEncoding.SplitUnique | android/app/src/main/kotlin/com/example/flutter_application_1/GhosttyTodoWidgetProvider.kt:64-66 | a list joining to s equals the split of s exactly when it is separable, so the split is the one separable list of pieces of s |
| TodoEncoding.DecodeJoin | android/app/src/main/kotlin/com/ghostty/app/GhosttyTodoWidgetProvider.kt:58-60 | storing and re-reading a list of separable entries returns it, except [""] which reads back as no entries |
| TodoEncoding.EntryWithDelimSplits | android/app/src/main/kotlin/com/ghostty/app/GhosttyTodoWidgetProvider.kt:58 | an entry holding the separator is stored exactly like the two entries around it and is read back as those two |
| TodoEncoding.BarFreeSeparable | android/app/src/main/kotlin/com/ghostty/app/GhosttyTodoWidgetProvider.kt:58-60 | an entry without any vertical bar is separable |
| CountLabel.ParseInt | android/app/src/main/kotlin/com/example/flutter_application_1/GhosttyTodoWidgetProvider.kt:60 | the count parses exactly when it is a numeral (an optional sign, then at least one decimal digit) whose value fits a 32-bit Int, and the result is that value |
| CountLabel.Label | android/app/src/main/kotlin/com/example/flutter_application_1/GhosttyTodoWidgetProvider.kt:60-61 | the label is either "All done!" or the stored count string itself followed by " pending" |
| CountLabel.LabelOfNumeral | android/app/src/main/kotlin/com/ghostty/app/GhosttyTodoWidgetProvider.kt:55-56 | a numeral whose value is 0 or outside the 32-bit range shows "All done!"; any other numeral shows itself, sign and leading zeros kept, followed by " pending" |
| CountLabel.LabelWithoutDigits | android/app/src/main/kotlin/com/ghostty/app/GhosttyTodoWidgetProvider.kt:55-56 | an empty count, or a lone sign, shows "All done!" |
| CountLabel.NonNumericCountIsAllDone | android/app/src/main/kotlin/com/ghostty/app/GhosttyTodoWidgetProvider.kt:55-56 | a count holding a non-digit (other than a leading sign) degrades to "All done!" instead of failing |
| CountLabel.NatToStringDigits | android/app/src/main/kotlin/com/ghostty/app/GhosttyTodoWidgetProvider.kt:55 | the decimal form of a count is all digits and has that count as its value |
| CountLabel.ParseNatToString | android/app/src/main/kotlin/com/ghostty/app/GhosttyTodoWidgetProvider.kt:55 | a non-negative Int written in decimal parses back to itself |
| CountLabel.LabelOfWrittenCount | android/app/src/main/kotlin/com/ghostty/app/GhosttyTodoWidgetProvider.kt:53-56 | a count written by the app shows "All done!" for 0 and "<n> pending" otherwise |
| TodoWidget.RefreshedRow | android/app/src/main/kotlin/com/example/flutter_application_1/GhosttyTodoWidgetProvider.kt:81-101 | a row is visible exactly when it has a title, an id and a slot; a visible row shows its title, styled consistently and checked exactly when its flag is "1"; a hidden row keeps its old text and style |
| TodoWidget.Project | android/app/src/main/kotlin/com/example/flutter_application_1/GhosttyTodoWidgetProvider.kt:60-105 | the refresh keeps the number of rows, shows the empty message exactly when the titles string is empty and then hides every row, and labels the count with "All done!" or the count string followed by " pending" |
| TodoWidget.WidgetViews.constructor | android/app/src/main/kotlin/com/example/flutter_application_1/GhosttyTodoWidgetProvider.kt:49 | a new view tree has five rows holding the layout's initial state |
| TodoWidget.WidgetViews.UpdateAppWidget | android/app/src/main/kotlin/com/example/flutter_application_1/GhosttyTodoWidgetProvider.kt:54-105 | after the hide loop and the populate loop the view tree equals the pure refresh `Project` of its old rows and the four preference strings |
| TodoWidget.EmptyTitlesShowEmptyMessage | android/app/src/main/kotlin/com/example/flutter_application_1/GhosttyTodoWidgetProvider.kt:69-75 | with no titles the empty message is visible and every row is hidden, whatever the ids and flags hold |
| TodoWidget.RowsFollowLists | android/app/src/main/kotlin/com/example/flutter_application_1/GhosttyTodoWidgetProvider.kt:76-101 | with titles the empty message is hidden; row i is visible iff i < min(titles, ids, 5), then shows titles[i] and is checked iff flag i exists and is "1" |
| TodoWidget.VisibleRowsStyleConsistent | android/app/src/main/kotlin/com/example/flutter_application_1/GhosttyTodoWidgetProvider.kt:91-101 | a visible row is never partly styled: gray, strike-through and checked icon go together |
| TodoWidget.TitlesWithoutIdsShowNothing | android/app/src/main/kotlin/com/ghostty/app/GhosttyTodoWidgetProvider.kt:66-73 | titles with an empty id list show no row and no empty message |
| TodoWidget.VisibleCountRefreshed | android/app/src/main/kotlin/com/ghostty/app/GhosttyTodoWidgetProvider.kt:71-73 | the first k refreshed rows hold exactly min(titles, ids, k) visible ones |
| TodoWidget.VisibleRowsBounded | android/app/src/main/kotlin/com/example/flutter_application_1/GhosttyTodoWidgetProvider.kt:81-82 | exactly min(titles, ids, 5) rows are visible, so at most five; later titles are dropped without error |
| TodoWidget.RefreshIgnoresStaleRows | android/app/src/main/kotlin/com/ghostty/app/GhosttyTodoWidgetProvider.kt:62-64 | whatever the rows held before, the same four strings give the same label, empty message, visibility and visible row contents |
| TodoWidgetExample.DecodeTwo | android/app/src/main/kotlin/com/ghostty/app/GhosttyTodoWidgetProvider.kt:58-60 | two entries without vertical bars joined with the separator decode to exactly those two entries |
| TodoWidgetExample.DecodeExampleTitles | android/app/src/main/kotlin/com/ghostty/app/GhosttyTodoWidgetProvider.kt:58 | the titles "Buy milk" and "Call mom", joined with the separator, decode to themselves |
| TodoWidgetExample.DecodeExampleIds | android/app/src/main/kotlin/com/ghostty/app/GhosttyTodoWidgetProvider.kt:59 | the ids "1" and "2", joined with the separator, decode to themselves |
| TodoWidgetExample.ExampleLabel | android/app/src/main/kotlin/com/ghostty/app/GhosttyTodoWidgetProvider.kt:55-56 | the count "1" is labelled "1 pending" |
| TodoWidgetExample.TwoTodosOneDone | android/app/src/main/kotlin/com/ghostty/app/GhosttyTodoWidgetProvider.kt:41-90 | two todos with one flag "1": first row checked and gray, second white and unchecked, the other three hidden, label "1 pending" |
| Navigation.AfterIntent | android/app/src/main/kotlin/com/ghostty/app/MainActivity.kt:82-90 | an intent leaves the channel state alone, sends at most one message and sends one exactly when it asks for the editor and the channel exists; the slot changes only to park the editor route while there is no channel |
| Navigation.AfterConfigure | android/app/src/main/kotlin/com/ghostty/app/MainActivity.kt:63-68 | configuration makes the channel present and the slot empty, and sends one message exactly when something was parked |
| Navigation.StepKeepsInv | android/app/src/main/kotlin/com/ghostty/app/MainActivity.kt:63-89 | both handlers keep the mailbox invariant (nothing parked once the channel exists) and only append to the channel |
| Navigation.IntentWithChannelSendsOnce | android/app/src/main/kotlin/com/ghostty/app/MainActivity.kt:83-85 | an editor intent with the channel present sends exactly one navigate("open_todo_editor") and leaves the slot unchanged |
| Navigation.IntentWithoutChannelParks | android/app/src/main/kotlin/com/ghostty/app/MainActivity.kt:84-87 | without a channel it sends nothing and parks "open_todo_editor"; repeated arrivals leave the same single value |
| Navigation.OtherIntentIgnored | android/app/src/main/kotlin/com/ghostty/app/MainActivity.kt:82-83 | any other action, or a null intent, changes neither field and sends nothing |
| Navigation.ConfigureFlushesOnce | android/app/src/main/kotlin/com/ghostty/app/MainActivity.kt:63-68 | configuration makes the channel present, sends the parked value once (nothing if none), clears the slot; a second configuration sends nothing |
| Navigation.RunKeepsInv | android/app/src/main/kotlin/com/ghostty/app/MainActivity.kt:22-23 | over any event sequence the invariant holds and the channel's history only grows |
| Navigation.ReadyRunSendsPerOpen | android/app/src/main/kotlin/com/ghostty/app/MainActivity.kt:83-85 | once the channel exists, every editor intent is sent, one message each |
| Navigation.RunSendsExpected | android/app/src/main/kotlin/com/ghostty/app/MainActivity.kt:63-89 | over any event sequence the number of navigations sent is the number `ExpectedSends` describes: no request lost, none duplicated |
| Navigation.EarlySends | android/app/src/main/kotlin/com/ghostty/app/MainActivity.kt:65-67 | intents before the first configuration collapse into one message sent at that configuration |
| Navigation.EarlyTapsDeliveredOnce | android/app/src/main/kotlin/com/ghostty/app/MainActivity.kt:63-89 | from a fresh activity, editor taps before the engine is ready give exactly one navigation, later taps one each, and all open the editor |
| Navigation.MainActivity.constructor | android/app/src/main/kotlin/com/ghostty/app/MainActivity.kt:22-23 | a new activity has no channel, nothing parked and nothing sent |
| Navigation.MainActivity.HandleIntent | android/app/src/main/kotlin/com/ghostty/app/MainActivity.kt:82-90 | forwards now with the channel, parks without it, ignores other intents; agrees with `AfterIntent` |
| Navigation.MainActivity.ConfigureFlutterEngine | android/app/src/main/kotlin/com/ghostty/app/MainActivity.kt:63-68 | creates the channel, sends the parked value once, clears the slot; agrees with `AfterConfigure` |
| ChannelDispatch.SecureCall | android/app/src/main/kotlin/com/ghostty/app/MainActivity.kt:28-40 | enableSecureMode and disableSecureMode answer success(null) and start the matching toggle; every other name is answered not-implemented |
| ChannelDispatch.MediaCall | android/app/src/main/kotlin/com/ghostty/app/MainActivity.kt:42-61 | notifyMediaDeleted with a path answers success(true) and deletes that path; scanFile with a path scans it and answers later; unknown names get not-implemented; a scan or deletion only ever uses the given path |
| ChannelDispatch.Dispatch | android/app/src/main/kotlin/com/ghostty/app/MainActivity.kt:28-61 | a call is answered not-implemented exactly when its name is not handled on its channel; window toggles come only from the secure channel, media actions only from the media channel |
| ChannelDispatch.UnknownMethodNotImplemented | android/app/src/main/kotlin/com/ghostty/app/MainActivity.kt:38-59 | on both channels an unhandled method name is answered notImplemented and does nothing |
| ChannelDispatch.ScanWithoutPath | android/app/src/main/kotlin/com/ghostty/app/MainActivity.kt:51-57 | scanFile without a path answers success(false) and scans nothing |
| ChannelDispatch.DeletionAlwaysSucceeds | android/app/src/main/kotlin/com/ghostty/app/MainActivity.kt:44-50 | notifyMediaDeleted answers success(true) with or without a path; only a path starts the deletion |
| ChannelDispatch.OnlyScansAnswerLater | android/app/src/main/kotlin/com/ghostty/app/MainActivity.kt:51-57 | only scanFile with a path defers its answer to the scanner; every other call is answered at once |

## Left out

- Reading the preferences: the four strings are inputs; a missing key is the empty string (the count: "0"), as the provider defaults it.
- `RemoteViews`, `AppWidgetManager`, the add-button `Intent`/`PendingIntent`, `onUpdate`, `onReceive`, `onEnabled`, `onDisabled`: platform wiring around the refresh.
- Concrete colour values and paint-flag integers: a row's colour is Gray or White, its paint flags a strike-through boolean, its icon Checked or Unchecked.
- TodoEncoding.SplitJoin, TodoEncoding.DecodeJoin: the round trip is promised for separable lists only, and SplitUnique shows no other list survives it. A title that holds "|||" is stored like two titles (EntryWithDelimSplits), so the widget shows it as two rows and every later title is paired with the wrong id and flag; the app's encoding has no escape for this.
- CountLabel.ParseInt: recognises only the ASCII digits '0'..'9'; Kotlin's `toIntOrNull` also accepts other Unicode decimal digits.
- `scanFileToMediaStore`, `notifyMediaDeleted`, `queryMediaUri`: media-store queries, deletions and the scanner's asynchronous callback (whose reply is `success(uri != null)`) are I/O; the handlers only name the action as an effect tag.
- `enableSecureMode`, `disableSecureMode`: window-flag calls, named as effect tags only.
- `onCreate`, `onNewIntent`: they only call `handleIntent` (and enable secure mode); the intent's action is the input of `HandleIntent`, `None` for a null intent or action.
- The `call.argument<String>("path")` lookup: a path argument that is present but not a string is not modelled; the path is `None` or a string.
- ios/Runner/AppDelegate.swift is not part of this model: its secure channel answers nil for `enableSecureMode` and not-implemented otherwise, and the rest is UIKit layering on the main queue.
