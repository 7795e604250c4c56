# VidNotes in Dafny

VidNotes is a small React app. It shows a simulated video player next to a
panel of timestamped notes ("bookmarks"). The notes live in one browser
storage key that holds the whole collection. This project models the parts
of the app that decide something:

- the bookmark repository (`services/bookmarkService.ts`): read, write, the
  per-video query, add, update, delete and the demo bootstrap;
- the App state (`App.tsx`): theme, current video, playback time, play flag
  and the list on screen;
- the simulated playback clock (`components/MockYouTubePlayer.tsx`);
- the notes panel (`components/VidNotesPanel.tsx`): search, the single open
  editor, adding a note by button or by the `p`/`P` key;
- one bookmark row (`components/BookmarkItem.tsx`): save, cancel, delete,
  seek and the textarea keys;
- the shortcut decision of `hooks/useKeyboardShortcuts.ts`;
- both `formatTime` helpers.

Layout, one module per file:

| file | module | models |
|---|---|---|
| `types.dfy` | `Types` | the records of `types.ts`, an `Option` type |
| `seqs.dfy` | `Seqs` | `Array.prototype.filter` and the subsequence order |
| `decimal.dfy` | `Decimal` | `toString` of whole numbers and `padStart(_, '0')` |
| `bookmark_service.dfy` | `BookmarkService` | the repository: store states, the pure effect of each operation, and the `BookmarkStore` class whose methods follow those effects |
| `app.dfy` | `App` | the `AppState` class and the video list |
| `player.dfy` | `Player` | the tick rule as a function on `Clock`, lemmas about runs of ticks, `m:ss`, and the player's handlers on `AppState` |
| `shortcuts.dfy` | `Shortcuts` | the keydown decision |
| `notes_panel.dfy` | `NotesPanel` | `hh:mm:ss`, the search filter, the editor rule, the `NotesPanel` class, adding a bookmark |
| `bookmark_item.dfy` | `BookmarkItem` | the `ItemEditor` class of one row |

The stored value is `Missing`, `Unreadable` or `Holds(items)`. Every write
takes a flag `ok` that says whether the browser accepted it. A failed write
leaves the store as it was, just as the source catches and logs the error.
Each operation is first a pure function on the store: `AddStep`,
`UpdateStep`, `DeleteStep` and `Bootstrap`. The properties are proved about
those functions. The methods of `BookmarkStore` are then proved to move the
store exactly as they say. UI handlers that hold state are methods on
`AppState`, `NotesPanel` and `ItemEditor`. The handlers that write the
store (`Mount`, `HandleAddBookmark`, `HandleShortcutKey`, `HandleSave`,
`HandleDelete` and the item's `HandleKeyDown`) are tied by their contracts to
the repository's effect functions and to the `InSync` invariant (the list on
screen equals the repository's answer for the current video). The other
handlers state the fields they set and what they leave alone.

Ids are `"bm-"` followed by the clock reading in milliseconds. The source
does not make them unique. The model proves uniqueness only under a strictly
advancing clock (`AddUniqueUnderAdvancingClock`,
`SeedUniqueUnderAdvancingClock`), and it shows that two adds in the same
millisecond collide (`SameInstantSameId`, `SeedSameInstantCollides`). With
duplicate ids, an update replaces only the first match
(`UpdateLeavesLaterDuplicates`). A delete removes every match. Both
duplicates would show their editor at once (`DuplicateIdsBothEditing`).

Some behaviour of the code is easy to assume otherwise:
- the source does not clamp seeks to `[0, duration]`;
- its ids are not unique;
- a delete writes the collection even when no record matched;
- the auto-pause happens on the tick that finds the time already at the
  duration, not on the tick that reaches it.

## Model

| member | source | states |
|---|---|---|
| Seqs.Filter | services/bookmarkService.ts:27 | the result is no longer than the input, holds exactly the input elements that satisfy the predicate, and keeps every occurrence of each of them (the multiset of kept elements) |
| Seqs.FilterIsSubsequence | services/bookmarkService.ts:55 | a filter keeps the relative order of the elements it keeps |
| Seqs.FilterKeepsAll | services/bookmarkService.ts:55 | a filter that rejects nothing returns its input unchanged |
| Seqs.FilterKeepsNone | components/VidNotesPanel.tsx:97 | a filter that accepts nothing returns the empty sequence |
| Seqs.FilterSamePredicate | components/VidNotesPanel.tsx:60 | predicates that agree on every element filter to the same result |
| Seqs.FilterIdempotent | services/bookmarkService.ts:55 | filtering twice with the same predicate equals filtering once |
| Decimal.DigitChar | services/bookmarkService.ts:35 | the character is a decimal digit whose value is the given number |
| Decimal.NatToString | services/bookmarkService.ts:35 | the rendering is all digits and canonical (no leading zero), its value is the number, and it has one character below 10 and at most two below 100 |
| Decimal.NatToStringDistinct | services/bookmarkService.ts:35 | different numbers render as different strings |
| Decimal.LeadingZeroValue | components/VidNotesPanel.tsx:21-23 | a leading zero does not change the value of a digit string |
| Decimal.PadZero | components/VidNotesPanel.tsx:21-23 | padding gives length max(len, width), keeps the original as its suffix, and a digit string keeps its value |
| BookmarkService.ReadAll | services/bookmarkService.ts:6-14 | a missing or unparsable key reads as the empty collection, otherwise the stored sequence |
| BookmarkService.Written | services/bookmarkService.ts:16-22 | a successful write makes the store read as the written sequence; a failed write changes nothing |
| BookmarkService.MakeId | services/bookmarkService.ts:35 | the id is "bm-" followed by the canonical decimal digits of the clock reading |
| BookmarkService.MakeIdDistinct | services/bookmarkService.ts:35 | different clock readings give different ids |
| BookmarkService.NewRecord | services/bookmarkService.ts:33-37 | the new record keeps the draft's videoId, timestamp and note, takes id "bm-" + the first reading and createdAt from the second |
| BookmarkService.AddUniqueUnderAdvancingClock | services/bookmarkService.ts:35 | if every stored id was made before the reading used now, the appended record keeps ids unique, and the collection was made before any later reading |
| BookmarkService.SameInstantSameId | services/bookmarkService.ts:35 | two adds with the same reading produce records with the same id |
| BookmarkService.OfVideo | services/bookmarkService.ts:27 | the records of the video, in their stored order, every occurrence kept and no other record |
| BookmarkService.SwapGroups | services/bookmarkService.ts:28 | a record of a smaller timestamp and the inserted one cannot both belong to one group, so their group contributions commute |
| BookmarkService.Insert | services/bookmarkService.ts:28 | inserting adds exactly the one element to the multiset |
| BookmarkService.InsertSorted | services/bookmarkService.ts:28 | inserting into a timestamp-sorted list keeps it sorted |
| BookmarkService.InsertWithTimestamp | services/bookmarkService.ts:28 | each timestamp group after the insertion is the group before it, with the inserted record in front when its timestamp matches |
| BookmarkService.SortByTimestamp | services/bookmarkService.ts:28 | the output is sorted by timestamp, a permutation of its input, and stable (every equal-timestamp group keeps its input order) |
| BookmarkService.SortStep | services/bookmarkService.ts:28 | inserting the head into a sorted, stable permutation of the tail gives a sorted, stable permutation of the whole |
| BookmarkService.BookmarksForVideo | services/bookmarkService.ts:24-29 | the answer is sorted by timestamp, a permutation of the records of that video, stable, and contains a record exactly when it is stored with that videoId |
| BookmarkService.FirstIndexOf | services/bookmarkService.ts:44 | Some(i) names the first position with that id; None exactly when no position has it |
| BookmarkService.ReplaceFirst | services/bookmarkService.ts:44-46 | None exactly when no record has the id; otherwise the same length with only the first match replaced |
| BookmarkService.UpdateLeavesLaterDuplicates | services/bookmarkService.ts:44-46 | with two records of one id, the update leaves the later record unchanged |
| BookmarkService.WithoutId | services/bookmarkService.ts:55 | the result is a subsequence of the input, holds a record exactly when the input does and its id differs, and keeps every occurrence of each such record |
| BookmarkService.DeleteAbsentId | services/bookmarkService.ts:53-57 | deleting an id that no record has leaves the collection as it was |
| BookmarkService.DeleteIdempotent | services/bookmarkService.ts:53-57 | deleting an id twice equals deleting it once |
| BookmarkService.AddStep | services/bookmarkService.ts:31-40 | when the write succeeds the collection becomes the old one followed by exactly the new record; otherwise the store is unchanged |
| BookmarkService.UpdateStep | services/bookmarkService.ts:42-51 | no matching id means no write; with a match and a working write, the collection becomes `ReplaceFirst` of it (only the first match replaced, every other position unchanged), so the length is kept and the argument is in it; a failed write changes nothing |
| BookmarkService.FirstIndexAfterReplace | services/bookmarkService.ts:44-46 | after the first match is replaced, it is still the first match |
| BookmarkService.UpdateStepTwice | services/bookmarkService.ts:42-51 | saving the same record twice equals saving it once |
| BookmarkService.DeleteStep | services/bookmarkService.ts:53-57 | when the write succeeds the collection becomes `WithoutId` of it (the other records, every occurrence, in their original order); a failed write changes nothing |
| BookmarkService.DeleteStepTwice | services/bookmarkService.ts:53-57 | two deletes of one id with working writes equal one |
| BookmarkService.SeedSteps | services/bookmarkService.ts:75 | one add per draft never removes or reorders what was stored, and adds at most one record per draft |
| BookmarkService.Records | services/bookmarkService.ts:65-75 | one record per demo draft |
| BookmarkService.RecordsAt | services/bookmarkService.ts:75 | the k-th seeded record is built from the k-th draft and the k-th clock reading |
| BookmarkService.Bootstrap | services/bookmarkService.ts:59-63 | a collection that reads as non-empty is left alone |
| BookmarkService.BootstrapExtends | services/bookmarkService.ts:59-76 | bootstrapping never removes or reorders what the store reads as, and one working write makes the collection non-empty |
| BookmarkService.AllOk | services/bookmarkService.ts:75 | n write results, every one of them successful |
| BookmarkService.EveryWriteOk | services/bookmarkService.ts:75 | write results none of which failed are `AllOk` |
| BookmarkService.SeedAppendsRecords | services/bookmarkService.ts:75 | with every write working, seeding appends exactly the records, in draft order |
| BookmarkService.SeedNonEmpty | services/bookmarkService.ts:75 | if any write of the loop works, the collection ends non-empty |
| BookmarkService.SeedExtends | services/bookmarkService.ts:75 | seeding never shrinks what the store reads as, and one working write is enough to make it non-empty |
| BookmarkService.BootstrapSeedsDemo | services/bookmarkService.ts:59-76 | on an empty store with working writes, the collection becomes exactly the seven demo records, in their listed order |
| BookmarkService.BootstrapIdempotent | services/bookmarkService.ts:60-63 | once one write of a bootstrap has succeeded, a second bootstrap changes nothing |
| BookmarkService.SeedUniqueUnderAdvancingClock | services/bookmarkService.ts:75 | with strictly increasing readings, the seeded ids are pairwise distinct |
| BookmarkService.SeedSameInstantCollides | services/bookmarkService.ts:75 | if the first two adds read the same millisecond, the seeded ids are not unique |
| BookmarkService.BookmarkStore.constructor | services/bookmarkService.ts:4 | the repository starts from the given stored value |
| BookmarkService.BookmarkStore.SaveAll | services/bookmarkService.ts:16-22 | the store becomes `Written(old, items, ok)` |
| BookmarkService.BookmarkStore.GetBookmarksForVideo | services/bookmarkService.ts:24-29 | returns `BookmarksForVideo` of the current collection and changes nothing |
| BookmarkService.BookmarkStore.AddBookmark | services/bookmarkService.ts:31-40 | returns the new record, moves the store by `AddStep`, and with a working write the collection is the old one plus that record |
| BookmarkService.BookmarkStore.UpdateBookmark | services/bookmarkService.ts:42-51 | moves the store by `UpdateStep`; returns the argument when a record matched and None otherwise |
| BookmarkService.BookmarkStore.DeleteBookmark | services/bookmarkService.ts:53-57 | moves the store by `DeleteStep`; an absent id leaves the collection unchanged |
| BookmarkService.BookmarkStore.InitializeDemoData | services/bookmarkService.ts:59-76 | moves the store by `Bootstrap`, and a non-empty collection is left alone |
| BookmarkService.BookmarkStore.AddEach | services/bookmarkService.ts:75 | the loop of adds moves the store by `SeedSteps` over the drafts, readings and write results |
| App.FindVideo | App.tsx:49 | Some gives the first listed video with that id (no earlier video has it); None exactly when no listed video has it |
| App.Toggled | App.tsx:37 | the new theme differs from the old one |
| App.ToggledTwice | App.tsx:36-38 | toggling twice restores the theme |
| App.AppState.constructor | App.tsx:14-21 | the saved theme or dark, the first mock video, time 0, paused, no bookmarks |
| App.AppState.Mount | App.tsx:23-25 | the store moves by `Bootstrap`, and afterwards the list is in sync with the repository |
| App.AppState.RefreshBookmarks | App.tsx:40-42 | the list becomes the repository's answer for the current video |
| App.AppState.ToggleTheme | App.tsx:36-38 | the theme becomes `Toggled` of the old one |
| App.AppState.HandleVideoChange | App.tsx:44-55 | an unknown id changes nothing; a known id selects that video at time 0, paused; the list is refreshed when the video changed, and sync is kept |
| App.AppState.HandleSeek | App.tsx:57-59 | the time becomes exactly the argument |
| Player.Step | components/MockYouTubePlayer.tsx:30-40 | a paused clock stays put; a tick never starts playback; a tick that keeps playing started before the end and adds exactly one second; a tick that pauses found the time at or past the end and pins it to the duration |
| Player.Run | components/MockYouTubePlayer.tsx:30-40 | a paused clock never moves; a run never starts playback; a run that started playing and ends paused ends exactly at the duration |
| Player.StepBeforeEnd | components/MockYouTubePlayer.tsx:33-38 | before the end a tick adds one second and keeps playing |
| Player.StepAtEnd | components/MockYouTubePlayer.tsx:34-36 | at or past the end a tick pins the time to the duration and pauses |
| Player.StepOvershoot | components/MockYouTubePlayer.tsx:34-38 | from half a second before the end a tick reaches half a second past it |
| Player.PausedStaysPut | components/MockYouTubePlayer.tsx:30-51 | while paused, any number of seconds leave the clock unchanged |
| Player.RunSplit | components/MockYouTubePlayer.tsx:32-40 | m + n seconds equal m seconds and then n more |
| Player.RunStaysWithin | components/MockYouTubePlayer.tsx:33-39 | from a whole-second time no later than the end, no number of ticks passes the end |
| Player.RunCountsUp | components/MockYouTubePlayer.tsx:33-38 | from second k, j ticks reach k + j while the end is not passed |
| Player.PlayFromStart | components/MockYouTubePlayer.tsx:33-39 | from 0 with duration d, d ticks give d still playing, and tick d + 1 pauses at d |
| Player.MssFields | components/MockYouTubePlayer.tsx:17 | joining canonical minutes and two-digit seconds with a colon gives a string that reads back as the same number |
| Player.FormatClock | components/MockYouTubePlayer.tsx:14-18 | the label is canonical minutes, a colon and exactly two digits of seconds below 60, and minutes * 60 + seconds is the input |
| Player.Tick | components/MockYouTubePlayer.tsx:32-40 | the App's time and play flag move by `Step` with the current video's duration |
| Player.TogglePlay | components/MockYouTubePlayer.tsx:85 | the play flag becomes its negation |
| Player.HandleProgressClick | components/MockYouTubePlayer.tsx:53-61 | the time becomes exactly the computed value, unclamped |
| Shortcuts.HandleKeyDown | hooks/useKeyboardShortcuts.ts:10-22 | a handler is chosen exactly when the target is not INPUT, TEXTAREA or SELECT and the key is bound; it is the bound one; the default is prevented exactly when a handler runs |
| Shortcuts.LookupIsCaseSensitive | hooks/useKeyboardShortcuts.ts:17 | binding "p" does not bind "P" |
| NotesPanel.SplitHms | components/VidNotesPanel.tsx:21-23 | hours * 3600 + minutes * 60 + seconds is the input, with minutes and seconds below 60, and hours below 100 for inputs below 360000 |
| NotesPanel.Field | components/VidNotesPanel.tsx:21-23 | a field has at least two digits and denotes its number; below 100 it has exactly two; from 10 up it has no leading zero |
| NotesPanel.HmsFields | components/VidNotesPanel.tsx:24 | joining two-digit minutes and seconds to the hours with colons gives a string that reads back as the same number |
| NotesPanel.FormatTime | components/VidNotesPanel.tsx:20-25 | the label reads back as the input: hours of at least two digits and without padding zeros from 10 hours up, then two-digit minutes and seconds below 60, and it has length 8 below 360000 seconds (the same helper is components/BookmarkItem.tsx:15-20) |
| NotesPanel.Lower | components/VidNotesPanel.tsx:60 | same length; no upper-case ASCII letter remains; each upper-case letter becomes the letter 32 code points later; every other character is unchanged |
| NotesPanel.Includes | components/VidNotesPanel.tsx:60 | a needle that is a prefix of the haystack is found, and one longer than the haystack is not; `IncludesIff` gives the full characterisation |
| NotesPanel.IncludesIff | components/VidNotesPanel.tsx:60 | `Includes` holds exactly when the needle occurs at some position of the haystack |
| NotesPanel.MatchesSearch | components/VidNotesPanel.tsx:60 | a note matches exactly when the lowered term occurs at some position of the lowered note |
| NotesPanel.FilteredBookmarks | components/VidNotesPanel.tsx:58-62 | the shown notes are a subsequence of the list, hold a bookmark exactly when its lowered note contains the lowered search term, keep every copy of a matching bookmark (the multiset of the matches), and an empty term keeps everything |
| NotesPanel.SearchIgnoresCase | components/VidNotesPanel.tsx:60 | two terms that lower to the same string show the same notes, so the search does not depend on the case of the term |
| NotesPanel.SearchByLoweredTerm | components/VidNotesPanel.tsx:60 | a term and its lowered form show the same notes |
| NotesPanel.EditingItems | components/VidNotesPanel.tsx:97 | a shown record is in edit mode exactly when its id is the open editor's id |
| NotesPanel.AtMostOneEditor | components/VidNotesPanel.tsx:37 | with unique ids, at most one shown row is in edit mode |
| NotesPanel.DuplicateIdsBothEditing | components/VidNotesPanel.tsx:97 | two distinct shown records with one id are both in edit mode |
| NotesPanel.NotesPanel.constructor | components/VidNotesPanel.tsx:36-37 | empty search, no open editor |
| NotesPanel.NotesPanel.SetSearchTerm | components/VidNotesPanel.tsx:82 | the search term becomes the input's value |
| NotesPanel.NotesPanel.SetIsEditing | components/VidNotesPanel.tsx:98 | the open editor becomes the given id |
| NotesPanel.NotesPanel.VideoIdEffect | components/VidNotesPanel.tsx:64-66 | a new video id closes any open editor; the same id leaves it |
| NotesPanel.AddDraft | components/VidNotesPanel.tsx:40-44 | the draft carries the current video's id, the note "New bookmark..." and the current time rounded down |
| NotesPanel.HandleAddBookmark | components/VidNotesPanel.tsx:39-45 | the store moves by `AddStep` with that draft, the list is in sync, and with a working write the new record is on screen |
| NotesPanel.PanelShortcutKeys | components/VidNotesPanel.tsx:53-56 | outside text fields both "p" and "P" prevent the default and add a bookmark; in a textarea "p" does nothing |
| NotesPanel.HandleShortcutKey | components/VidNotesPanel.tsx:53-56 | prevents the default as `HandleKeyDown` decides; then the store moves by one add, otherwise nothing changes |
| BookmarkItem.Saved | components/BookmarkItem.tsx:43 | only the note is replaced; id, videoId, timestamp and createdAt are kept |
| BookmarkItem.SavedUnchanged | components/BookmarkItem.tsx:43 | saving the note a record already has gives the same record |
| BookmarkItem.ClassifyKey | components/BookmarkItem.tsx:83-91 | Enter without Shift saves, Escape cancels, and nothing else does either |
| BookmarkItem.ShiftEnterIsTyping | components/BookmarkItem.tsx:84 | Shift+Enter neither saves nor cancels |
| BookmarkItem.ItemEditor.constructor | components/BookmarkItem.tsx:29 | the draft starts as the stored note |
| BookmarkItem.ItemEditor.HandleTextareaInput | components/BookmarkItem.tsx:60-64 | the draft becomes the textarea's value |
| BookmarkItem.ItemEditor.StartEditing | components/BookmarkItem.tsx:114 | this row's id becomes the open editor |
| BookmarkItem.ItemEditor.HandleSave | components/BookmarkItem.tsx:42-46 | the store moves by `UpdateStep` with the record carrying the draft note; no editor is open; the list is in sync |
| BookmarkItem.ItemEditor.HandleCancel | components/BookmarkItem.tsx:48-51 | the draft returns to the stored note and no editor is open; nothing is written |
| BookmarkItem.ItemEditor.HandleDelete | components/BookmarkItem.tsx:53-58 | a confirmed delete moves the store by `DeleteStep` and keeps the list in sync; an unconfirmed one changes nothing |
| BookmarkItem.ItemEditor.ClickTimestamp | components/BookmarkItem.tsx:71 | the time becomes exactly the bookmark's timestamp |
| BookmarkItem.ItemEditor.HandleKeyDown | components/BookmarkItem.tsx:83-91 | prevents the default exactly for Enter without Shift, which saves the draft; Escape cancels; any other key changes nothing |

## Left out

- JSON parsing and serialisation are not modelled. A stored value is `Missing`, `Unreadable` or a collection. Stored JSON that parses but is not an array of bookmarks is not modelled.
- Whether a storage write succeeds is an input flag `ok`. The logged error message is not modelled.
- `Date.now()` is an input. The two calls of one add are two readings, `forId` and `forCreatedAt`, which may differ.
- Timers: one call of `Tick` stands for one second of an existing interval. A paused clock has no interval, so time passing changes nothing. The timer handle, interval registration and clearing are not modelled.
- The progress-bar arithmetic is floating point, and so is the percentage it draws. The seek value is an arbitrary `real` input.
- Rendering and the DOM are not modelled: JSX, classes, the scroll-to-bottom timeout, textarea auto-resize, focus and select, `alert`, and `components/PanelHeader.tsx`.
- `window.confirm` is a boolean input. Adding and removing the keydown listener is not modelled.
- The theme's storage read is an `Option<Theme>` input. A truthy stored string that is neither "light" nor "dark" is not modelled. The theme's storage write and the `dark` class on the document are not modelled.
- `toLowerCase` lowers ASCII letters only. Unicode case mapping is not modelled.
- Shortcut keys are looked up in a finite map. JavaScript lookups through inherited object properties are not modelled.
- NotesPanel.FormatTime: the input is a `nat`. For a non-negative time the source's label equals the label of its floor, so callers pass the floor. Negative times are not modelled.
- Player.FormatClock: the input is a `nat`, for the same reason.
- Times are `real` in `AppState` and whole numbers in bookmarks. A bookmark's timestamp is the floor of the current time. JavaScript number precision is not modelled.
- The panel's and the item's handlers are modelled on separate objects (`NotesPanel`, `ItemEditor`, `AppState`). Re-rendering, and the recreation of an item's draft state when the list changes, are not modelled.
