# Geneco: a verified model of the client's logic

Geneco is a React client over a hosted database and a hosted image
classifier. Users photograph waste, get it classified and costed in carbon,
earn points and levels, and file complaints that the community upvotes and
escalates to the local authority. This project models in Dafny the parts of
the client that decide something:

- the points table, the level computation and the points award (`gamification.ts`);
- the parser for the classifier's reply and its error mapping (`gemini.ts`);
- the carbon table (`carbon.ts`);
- the escalation of a complaint (`complaints.ts`);
- the handlers and display rules of the complaint card, event card, carbon
  panel, leaderboard, image upload, report history and complaint form.

Each call to the database, the storage service, the classifier or the
browser's geolocation becomes a parameter: the call either succeeds with a
value or fails with a thrown value (`Outcomes.Thrown`, an `Error` with its
message or any other value). The database is a `Backend.Database` object
with one field per table. A handler that updates component state is a
method of a class whose fields are that state. Carbon impacts are integers
in tenths of a kilogram (0.5 kg is 5).

Modules, one file each: `Outcomes`, `Text` (the JavaScript string operations
used: `split`, `join`, `trim`, `indexOf`, line-anchored regular-expression
captures, ASCII case folding), `Lists` (`filter`, `map` and `Set` de-duplication),
`Backend`, `Gamification`, `Gemini`, `Carbon`, `Complaints`, `ComplaintCard`,
`EventCard`, `CarbonStats`, `Leaderboard`, `ImageUpload`, `WasteHistory` and
`ComplaintForm`.

Where the repository's prose and its code disagree, the model follows the
code. The level table's comments promise level 10 from 100000 points. The
code returns -1 there (see "Findings"), and `Gamification.CalculateLevel`
returns -1 too.

## Model

| member | source | states |
|---|---|---|
| `Outcomes.MessageOr` | src/lib/complaints.ts:44 | a thrown `Error` gives its own message; any other thrown value gives the caller's fallback text |
| `Lists.Dedupe` | src/components/waste/CarbonStats.tsx:44 | `[...new Set(s)]` holds every element of `s` and nothing else, with no duplicates |
| `Lists.DedupeInOrder` | src/components/waste/CarbonStats.tsx:44 | elements come in the order of their first occurrence: de-duplicating any prefix of `s` gives a prefix of the result |
| `Gamification.PointsFor` | src/lib/gamification.ts:3-8 | every action is worth a positive multiple of 50 points, at most 500 |
| `Gamification.PointsTable` | src/lib/gamification.ts:3-8 | waste_report 100, eco_event 500, verified_implementation 300, complaint_upvote 50 |
| `Gamification.CalculateLevel` | src/lib/gamification.ts:10-25 | for 0 ≤ p < 100000 the level is between 1 and 9; it is -1 for every p ≥ 100000 and 10 for every p < 0 |
| `Gamification.LevelCountsThresholds` | src/lib/gamification.ts:10-25 | for 0 ≤ p < 100000 the level is the number of thresholds ≤ p |
| `Gamification.LevelExamples` | src/lib/gamification.ts:10-24 | level(0) = level(999) = 1, level(1000) = 2, level(2500) = 3, level(99999) = 9, level(100000) = -1, level(-1) = 10 |
| `Gamification.TopLevelUnreachable` | src/lib/gamification.ts:24 | no non-negative total reaches level 10; the level is -1 exactly for totals from 100000 |
| `Gamification.LevelMonotone` | src/lib/gamification.ts:23-25 | more points never give a lower level on [0, 100000) |
| `Gamification.IntendedLevel` | src/lib/gamification.ts:10-21 | corrected level: between 1 and 10, and 10 exactly when p ≥ 100000 |
| `Gamification.IntendedLevelCounts` | src/lib/gamification.ts:10-21 | the corrected level of every p ≥ 0 is the number of thresholds ≤ p |
| `Gamification.IntendedLevelMonotone` | src/lib/gamification.ts:10-21 | the corrected level is monotone over all totals |
| `Gamification.LevelAsWrittenVersusIntended` | src/lib/gamification.ts:24 | the code and the corrected level agree on [0, 100000); from 100000 on, the code gives -1 where 10 is meant |
| `Gamification.AwardResult` | src/lib/gamification.ts:41-70 | the award succeeds iff all three store calls succeed; the new total is the previous one (0 when absent) plus the action's points and exceeds the previous one; the level is `calculateLevel` of the new total; a failure is the first failing call's error |
| `Gamification.PointsAfterAward` | src/lib/gamification.ts:41-57 | no other user's row changes; the table is unchanged when the fetch or the upsert fails; otherwise the user's row holds the previous total (0 when absent) plus the action's points, at `calculateLevel` of that total, even if the later insert fails |
| `Gamification.LogAfterAward` | src/lib/gamification.ts:59-68 | the log is unchanged when any of the three calls fails; otherwise one entry is appended for the user, with the action's points and the reason `"<action>: <referenceId>"` |
| `Gamification.AwardConsistent` | src/lib/gamification.ts:43-70 | on success the stored row is the returned `{points, level}` and no other user changes; the log grows by exactly one entry, holding the awarded amount (not the total) and the reason `"<action>: <referenceId>"` |
| `Gamification.StoredLevelVersusIntended` | src/lib/gamification.ts:45-53 | the stored level equals the corrected level below 100000 points, and is -1 instead of 10 from there on |
| `Gamification.AwardWithoutLogEntry` | src/lib/gamification.ts:57-68 | nothing is rolled back: if only the log insert fails, the call fails and the points are updated with no transaction recorded |
| `Gamification.AwardEarlyFailureWritesNothing` | src/lib/gamification.ts:41-57 | a fetch or upsert failure leaves both the points table and the log untouched |
| `Gamification.AwardPoints` | src/lib/gamification.ts:27-71 | returns `AwardResult` of the old table and leaves the tables as `PointsAfterAward` and `LogAfterAward` describe (the three lemmas above) |
| `Gemini.StripBullet` | src/lib/gemini.ts:57 | a line that starts with `- ` loses exactly those two characters; any other line is left as it is |
| `Lists.Map` | src/lib/gemini.ts:57 | `map` gives one result per element, the k-th being `f` of the k-th element |
| `Lists.MapAppend` | src/lib/gemini.ts:57 | mapping a concatenation is concatenating the mapped parts |
| `Lists.FilterOne` | src/lib/gemini.ts:58 | `filter` keeps a single element exactly when it passes |
| `Gemini.CleanLines` | src/lib/gemini.ts:57-58 | no more results than lines, none empty, each a cleaned line, and every line whose cleaned text is non-empty contributes that text |
| `Gemini.CleanLinesAppend` | src/lib/gemini.ts:55-58 | the cleaned lines of a block are those of its front followed by those of its back, so line order is kept |
| `Gemini.CleanLinesOne` | src/lib/gemini.ts:57-58 | one line gives its bullet-stripped, trimmed text, or nothing when that is empty |
| `Gemini.Recommendations` | src/lib/gemini.ts:55-58 | no more recommendations than lines, none empty, and every line of the part whose cleaned text is non-empty contributes that text (order: `CleanLinesAppend`) |
| `Gemini.CaptureOr` | src/lib/gemini.ts:53-54 | the fallback when the marker does not occur; otherwise the rest of the line after the first occurrence that is followed by at least one character other than a line terminator, and the fallback when there is no such occurrence |
| `Gemini.Parse` | src/lib/gemini.ts:52-58 | fails iff the reply has no `---`, with "Failed to classify waste image"; otherwise the category and confidence are non-empty, no recommendation is empty, and there are no more recommendations than lines after the separator |
| `Gemini.ClassifyWasteImage` | src/lib/gemini.ts:23-68 | an empty image encoding, a failed model call and an unparsable reply all fail with the same message; otherwise the result is the parse of the reply |
| `Gemini.UnknownWithoutCategory` | src/lib/gemini.ts:53 | a reply that never contains `Category: ` is classified as "Unknown" |
| `Gemini.ZeroWithoutConfidence` | src/lib/gemini.ts:54 | a reply that never contains `Confidence: ` has confidence "0" |
| `Gemini.ParseFormat` | src/lib/gemini.ts:35-58 | round trip: a reply in the prompted format parses back to its category, confidence and recommendations, in order |
| `Carbon.CalculateCarbonFootprint` | src/lib/carbon.ts:42-49 | the impact is always positive; a known category gets its table impact and suggestions; anything else gets impact 1.0 and no suggestions; there are three suggestions, and any at all, exactly for a known category |
| `Carbon.ImpactTable` | src/lib/carbon.ts:6-12 | the five categories weigh 0.5, 2.0, 0.8, 1.5 and 3.0 kg |
| `Carbon.FallbackIffNoSuggestions` | src/lib/carbon.ts:43-44 | the impact is the fallback exactly when the suggestion list is empty |
| `Carbon.CaseSensitive` | src/lib/carbon.ts:43 | the key match is exact: "recyclable" falls back |
| `Complaints.Escalated` | src/lib/complaints.ts:22-36 | the escalated row is notified, pending, located at the given coordinates, and has one update line; every other column is kept |
| `Complaints.EscalateTwice` | src/lib/complaints.ts:8-39 | there is no guard against escalating again, and a repeat from the same position gives the same row |
| `Complaints.RedirectOutcome` | src/lib/complaints.ts:8-61 | success iff the fetch succeeds, the complaint exists, a position is obtained and the update succeeds; each failure's message, including the unsupported-geolocation text and the fallback for a position error |
| `Complaints.RedirectToAuthority` | src/lib/complaints.ts:8-46 | never throws; on success exactly the given complaint is replaced by its escalated row, and on any failure the table is unchanged |
| `ComplaintCard.UpvoteIgnored` | src/components/community/ComplaintCard.tsx:91 | the click is handled exactly when a user is signed in, has not upvoted yet, and nothing is loading |
| `ComplaintCard.UpvoteDisabled` | src/components/community/ComplaintCard.tsx:184 | the upvote button is disabled iff loading, signed out, already upvoted, or the viewer wrote the complaint |
| `ComplaintCard.AuthorshipOnlyInButton` | src/components/community/ComplaintCard.tsx:184 | the handler's own guard admits the author's click; only the button stops it |
| `ComplaintCard.ShowsAuthorityRedirect` | src/components/community/ComplaintCard.tsx:152 | the escalation offer shows iff the local count is at least 15 and the complaint is not marked notified |
| `ComplaintCard.EscalationHidesOffer` | src/components/community/ComplaintCard.tsx:152 | after escalation the offer is never shown, whatever the count |
| `ComplaintCard.StatusColor` | src/components/community/ComplaintCard.tsx:139-150 | pending is yellow, in_progress blue, resolved green, anything else gray, compared after lower-casing |
| `ComplaintCard.StatusColorIgnoresCase` | src/components/community/ComplaintCard.tsx:140 | the colour does not depend on letter case |
| `ComplaintCard.IsImageUrl` | src/components/community/ComplaintCard.tsx:266 | an address is shown as an image iff it ends, ignoring case, in .jpg, .jpeg, .png or .webp |
| `ComplaintCard.IsImageUrlIgnoresCase` | src/components/community/ComplaintCard.tsx:266 | the image test does not depend on letter case |
| `ComplaintCard.Card.CheckUpvoteStatus` | src/components/community/ComplaintCard.tsx:37-55 | with a user and an id, `hasUpvoted` records whether this user's vote on this complaint is stored, and a failed query reads as no vote; otherwise nothing changes |
| `ComplaintCard.Card.BeginUpvote` | src/components/community/ComplaintCard.tsx:91-99 | before the insert: loading, no error, marked as upvoted, and the count up by exactly one |
| `ComplaintCard.Card.FinishUpvote` | src/components/community/ComplaintCard.tsx:101-119 | the vote is stored, or on failure the mark and the extra vote are taken back and the error is shown; loading ends either way |
| `ComplaintCard.Card.HandleUpvote` | src/components/community/ComplaintCard.tsx:90-120 | a no-op without a user, after a vote or while loading; otherwise one vote is stored and counted, or on failure the count is back where it was and an error is set; loading ends false |
| `ComplaintCard.Card.ApplyServerCount` | src/components/community/ComplaintCard.tsx:70-81 | a realtime change replaces the local count by the server's when a row came back |
| `ComplaintCard.Card.HandleRedirectToAuthority` | src/components/community/ComplaintCard.tsx:122-137 | does nothing without an id; otherwise escalates through `RedirectToAuthority`, calls `onUpdate` unless an error with a non-empty message came back, shows that message, and ends not redirecting |
| `EventCard.IsFull` | src/components/community/EventCard.tsx:50 | an event has room exactly while its participant count is below its maximum |
| `EventCard.IsPast` | src/components/community/EventCard.tsx:51-52 | an unparsable date is never past; a parsed one is past exactly when it is strictly before now |
| `EventCard.OwnEvent` | src/components/community/EventCard.tsx:90 | with no viewer no event is the viewer's own; otherwise it is exactly when the owner is the viewer |
| `EventCard.JoinDisabled` | src/components/community/EventCard.tsx:90 | the join button is enabled iff not loading, not full, not past and not the viewer's own event |
| `EventCard.Label` | src/components/community/EventCard.tsx:93-106 | the label priority is loading, then "Your Event", then "Event Ended", then "Event Full", then "Join Event" |
| `EventCard.LabelMatchesButton` | src/components/community/EventCard.tsx:90-106 | the label reads "Join Event" exactly when the button is enabled |
| `EventCard.EndedBeforeFull` | src/components/community/EventCard.tsx:50-104 | an event both past (date strictly before now) and full (participants ≥ maximum) says "Event Ended" |
| `EventCard.Card.BeginJoin` | src/components/community/EventCard.tsx:30-31 | before the insert: loading and no error |
| `EventCard.Card.FinishJoin` | src/components/community/EventCard.tsx:33-47 | the participation row is stored and `onUpdate` called, or the error is shown and nothing stored; loading ends either way |
| `EventCard.Card.HandleJoin` | src/components/community/EventCard.tsx:27-48 | a no-op without a user; otherwise inserts without rechecking full, past or ownership, calls `onUpdate` iff the insert succeeds, and ends not loading |
| `CarbonStats.ChartData` | src/components/waste/CarbonStats.tsx:34-37 | one chart point per row, in row order, with the row's date and impact |
| `CarbonStats.TotalImpact` | src/components/waste/CarbonStats.tsx:40 | the total of no rows is 0, and of non-negative impacts is non-negative |
| `CarbonStats.TotalAppend` | src/components/waste/CarbonStats.tsx:40 | the total of two batches of rows is the sum of their totals |
| `CarbonStats.TotalMatchesChart` | src/components/waste/CarbonStats.tsx:34-40 | the total is the sum of the chart's impacts |
| `CarbonStats.AllSuggestions` | src/components/waste/CarbonStats.tsx:43 | the concatenation holds exactly the advice of some row |
| `CarbonStats.UniqueSuggestions` | src/components/waste/CarbonStats.tsx:43-44 | the shown advice is the first min(5, n) of the n distinct pieces, in first-occurrence order |
| `CarbonStats.UniqueSuggestionsSound` | src/components/waste/CarbonStats.tsx:43-44 | the shown advice has no repeats and comes from the rows; when fewer than five are shown, every row's advice is among them |
| `CarbonStats.FetchCarbonData` | src/components/waste/CarbonStats.tsx:18-54 | a query error sets the error and changes no data; otherwise chart, total and advice come from the rows (none when the data is null); loading ends false on both paths |
| `CarbonStats.FailedLoadShowsNoData` | src/components/waste/CarbonStats.tsx:31-53 | after a failed first load the panel has no data and an error |
| `Leaderboard.Firsts` | src/components/waste/Leaderboard.tsx:47-50 | at most one letter per piece, none lower-case; one per piece, each the upper-cased first letter, when no piece is empty |
| `Leaderboard.FirstsAppend` | src/components/waste/Leaderboard.tsx:47-50 | the initials of a list of pieces are those of its front followed by those of its back |
| `Leaderboard.FirstsOne` | src/components/waste/Leaderboard.tsx:49 | a piece gives its upper-cased first letter, and an empty piece gives nothing |
| `Leaderboard.GetInitials` | src/components/waste/Leaderboard.tsx:44-51 | "??" for a missing or empty address; otherwise at most one letter per dot-separated piece of the text before the first '@', none lower-case |
| `Leaderboard.InitialsOfAddress` | src/components/waste/Leaderboard.tsx:46-50 | the initials of `a.b.c@domain` are the upper-cased first letters of `a`, `b`, `c`, whatever the domain |
| `Leaderboard.InitialsExample` | src/components/waste/Leaderboard.tsx:44-51 | "jane.doe@example.org" gives "JD" |
| `Leaderboard.RankBadge` | src/components/waste/Leaderboard.tsx:111-119 | gold, silver and bronze medals for rows 0, 1 and 2; every later row shows its index plus one |
| `Leaderboard.RankBadgeInjective` | src/components/waste/Leaderboard.tsx:111-119 | no two rows show the same badge |
| `Leaderboard.View.FetchLeaderboard` | src/components/waste/Leaderboard.tsx:20-37 | non-empty data replaces the rows; null or empty data sets "No leaderboard data available." and keeps the previous rows; a thrown value sets its message and keeps the rows; loading ends false |
| `ImageUpload.FileExtension` | src/components/waste/ImageUpload.tsx:27 | the extension has no dot and ends the name; it is the whole name when the name has no dot |
| `Text.CharOccurs` | src/components/waste/ImageUpload.tsx:27 | a character occurs in a string exactly when the one-character string does |
| `ImageUpload.ExtensionAfterLastDot` | src/components/waste/ImageUpload.tsx:27 | when the name has a dot, a dot stands right before the extension, so it is the text after the last dot |
| `ImageUpload.ExtensionOfDotted` | src/components/waste/ImageUpload.tsx:27 | a name ending in a dot and dot-free text has that text as its extension |
| `ImageUpload.StoragePath` | src/components/waste/ImageUpload.tsx:27-29 | the path starts with the user's id and a slash |
| `ImageUpload.StoragePathKeepsExtension` | src/components/waste/ImageUpload.tsx:27-29 | the stored object's name has the same extension as the dropped file |
| `ImageUpload.StoragePathInUserFolder` | src/components/waste/ImageUpload.tsx:27-29 | the path's first segment is the user's id, and the path ends with a dot and the extension |
| `ImageUpload.StepsRun` | src/components/waste/ImageUpload.tsx:31-76 | an upload error stops after the first step; all six steps run iff the upload, the classification and the report insert succeed |
| `ImageUpload.ReportRow` | src/components/waste/ImageUpload.tsx:49-61 | the report stores the new id, the user, the public address, the classifier's category, confidence and recommendations, status "completed", and the category's impact |
| `ImageUpload.FootprintRow` | src/components/waste/ImageUpload.tsx:66-73 | the footprint row carries the user, the new report's id, and the category's impact and suggestions |
| `ImageUpload.ReportMatchesFootprint` | src/components/waste/ImageUpload.tsx:51-72 | the report and its footprint row record the same positive impact and are linked by the report's id |
| `ImageUpload.ThrownBy` | src/components/waste/ImageUpload.tsx:25-79 | an early stop always throws; an upload error is thrown as is; a classification failure throws "Failed to classify waste image"; a report insert error is thrown as is; after all steps, nothing is thrown when the award succeeds and the award's error when it fails |
| `ImageUpload.FootprintErrorIgnored` | src/components/waste/ImageUpload.tsx:66-76 | the footprint insert's error changes neither the steps that run nor what is thrown, so points are still awarded |
| `ImageUpload.RunSteps` | src/components/waste/ImageUpload.tsx:25-77 | runs exactly the first `StepsRun` steps in order; stores the image only after a successful upload, the report only if all six steps run, its footprint only if that insert also succeeds, and awards points for a waste report with the new report's id |
| `ImageUpload.RecordAndReward` | src/components/waste/ImageUpload.tsx:49-76 | once the report insert succeeds: the report row is stored, its footprint row unless that insert fails, the points are awarded, and what is thrown is `ThrownBy` |
| `ImageUpload.Page.OnDrop` | src/components/waste/ImageUpload.tsx:16-83 | a no-op without a user or a file; otherwise uses the first file, shows the thrown value's message or "An error occurred", and ends not loading |
| `WasteHistory.WithoutReport` | src/components/waste/WasteHistory.tsx:53 | the list keeps exactly the reports whose id differs |
| `WasteHistory.WithoutReportKeepsOrder` | src/components/waste/WasteHistory.tsx:53 | the reports that stay keep their relative order |
| `WasteHistory.WithoutAbsentReport` | src/components/waste/WasteHistory.tsx:53 | deleting an id that is not listed changes nothing |
| `WasteHistory.WithoutReportIdempotent` | src/components/waste/WasteHistory.tsx:53 | removing the same id twice is removing it once |
| `WasteHistory.View.FetchReports` | src/components/waste/WasteHistory.tsx:26-40 | stores the data, or an empty list when it is null; an error sets its message and keeps the list; loading ends false |
| `WasteHistory.View.BeginDelete` | src/components/waste/WasteHistory.tsx:44 | `deleting` holds the id during the call |
| `WasteHistory.View.FinishDelete` | src/components/waste/WasteHistory.tsx:45-58 | on success the rows with that id leave both the store and the list; on failure both are unchanged and an error is set; `deleting` ends empty |
| `WasteHistory.View.HandleDelete` | src/components/waste/WasteHistory.tsx:42-59 | the whole handler: the same outcome as `FinishDelete`, after `BeginDelete` |
| `ComplaintForm.MediaPath` | src/components/community/ComplaintForm.tsx:32-34 | the path is the waste-photo path of the same user, random part and file, under `complaints/` |
| `ComplaintForm.StoredFor` | src/components/community/ComplaintForm.tsx:31-40 | at most one stored object per file |
| `ComplaintForm.StoredForAppend` | src/components/community/ComplaintForm.tsx:31-40 | what a list of files stores is what its front stores followed by what its back stores |
| `ComplaintForm.StoredForOne` | src/components/community/ComplaintForm.tsx:36-40 | a file stores one object in the media bucket under its own path when its upload succeeds, and nothing when it fails |
| `ComplaintForm.AllStored` | src/components/community/ComplaintForm.tsx:31-47 | when every upload succeeds, file k is stored in the media bucket under `complaints/<user>/<random>.<ext>` |
| `ComplaintForm.UrlsOf` | src/components/community/ComplaintForm.tsx:49 | one address per file |
| `ComplaintForm.UrlsInOrder` | src/components/community/ComplaintForm.tsx:49-50 | the k-th address is the k-th file's |
| `ComplaintForm.FirstFailure` | src/components/community/ComplaintForm.tsx:40-52 | a failure of the first file is the one reported, whatever the later files do |
| `ComplaintForm.FirstFailureIsFirst` | src/components/community/ComplaintForm.tsx:40-52 | there is a failure exactly when some upload failed, and it is the first failed file's error |
| `ComplaintForm.Without` | src/components/community/ComplaintForm.tsx:185 | removing an address drops every copy of it and keeps every other address |
| `ComplaintForm.WithoutKeepsOrder` | src/components/community/ComplaintForm.tsx:185 | the remaining addresses keep their order |
| `ComplaintForm.WithoutAbsent` | src/components/community/ComplaintForm.tsx:185 | removing an address that is not listed changes nothing |
| `ComplaintForm.UploadAll` | src/components/community/ComplaintForm.tsx:31-49 | every file is uploaded; the successful ones are stored; the addresses are collected in file order and the first failure is kept |
| `ComplaintForm.Form.OnDrop` | src/components/community/ComplaintForm.tsx:24-56 | a no-op without a user; when every upload succeeds the addresses are appended after the existing ones in file order; otherwise the list is unchanged and the error set; loading ends false |
| `ComplaintForm.Form.RemoveFile` | src/components/community/ComplaintForm.tsx:185 | the list becomes `Without(list, url)` |
| `ComplaintForm.Form.HandleSubmit` | src/components/community/ComplaintForm.tsx:68-91 | a no-op without a user; otherwise inserts title, description, location, the user and the current address list, calls `onComplaintCreated` iff that succeeds, and ends not loading |

## Left out

- Rendering, styling and routing (JSX, icons, the chart, `toLocaleString`, `toFixed`), and the pages and components that only render or forward form fields: the app shell, the auth page, the community page, the event form, the classification result card and the theme toggle.
- The classifier and browser I/O are left out. This covers the model call, fetching the image and its base64 conversion (`fetchImageAsBase64`), and `FileReader`. Their results enter as parameters: the image encoding, and the reply or its absence.
- The database and storage services. Their queries, row-level security, ordering, `limit(10)` in `getLeaderboard` and generated ids are left out. Each call's result or error is a parameter.
- `Math.random()` file names, `new Date()` and date parsing are parameters. An unparsable event date is `None`.
- Realtime subscriptions, and any interleaving of handlers, are left out. Each handler is one sequential step. Stale closures, such as `handleDelete` filtering the list it captured at render time, are not modelled.
- Lookups of prototype keys such as "toString" in the carbon tables are left out. The tables are closed maps over the five categories.
- Non-array leaderboard data is left out, because the data is typed as an optional sequence.
- A null `reduction_suggestions` column is left out. Spreading it would throw inside the carbon panel.
- JavaScript strings are UTF-16 code-unit sequences. The model uses Dafny `char` sequences.
- Gemini.Parse: the confidence is kept as the captured text. The `parseFloat` conversion, and its NaN for non-numeric text, are not modelled.
- Leaderboard.GetInitials: `toUpperCase` is modelled for ASCII letters only. Other letters are kept as they are.
- ComplaintCard.StatusColor: `toLowerCase` is modelled for ASCII letters only; other characters are kept as they are.
- ComplaintCard.UpvoteIgnored: a signed-in viewer is `Some(id)` and is treated as signed in even when `id` is empty, whereas `!currentUserId` also rejects "". The store's user ids are never empty, so the model does not separate the two.
- ComplaintForm.Form.OnDrop: the reported error is the first failure in file order. `Promise.all` rejects with the first failure in time, which the model cannot see.
- ImageUpload.Page.OnDrop: only the image and report tables are spelled out in its contract. The footprint, points and log tables are stated by `RunSteps`, which it calls.
- Gamification.AwardPoints: concurrent awards to one user can lose updates, because the read and the upsert are separate calls. This is not modelled.
- The stored level keeps the code's as-written value (`CalculateLevel`), because that is what the application writes. `Gamification.StoredLevelVersusIntended` states where it differs from the corrected level.

## Findings

| source | as written | input that shows it | evidently intended | confidence | as-written member | corrected member |
|---|---|---|---|---|---|---|
| src/lib/gamification.ts:24 | `findIndex(t => points < t) \|\| LEVEL_THRESHOLDS.length`: `findIndex` returns -1 when no threshold exceeds the total, and -1 is truthy, so the fallback never applies there; it applies only when `findIndex` returns 0, for negative totals | 100000 points give level -1 (and -5 points give level 10) | level 10 for every total of at least 100000, as the threshold comments say, and level 1 below 0 | high, not executed | `Gamification.TopLevelUnreachable` | `Gamification.IntendedLevel` |
