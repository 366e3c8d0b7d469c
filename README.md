# A verified model of the note client's reconciler and editor

This project models the two stateful parts of a React notes client:

- **The note collection reconciler** of the top-level component (`App`).
  - It keeps the in-memory list of notes, the active view (`all`, `favorites` or `trash`), the selected note, the search query and the pane a phone shows.
  - After every request to the notes REST API, it patches the list: a save either replaces the note, drops it or puts it at the head; a delete drops it; a favourite toggle flips the star at once; a search or a view change reloads the list.
- **The note editor** (`NoteEditor`).
  - It keeps the draft of the selected note: the title, the content and the tags as comma-separated text.
  - It tracks the dirty, saving and uploading flags and the single debounced autosave timer.
  - The draft is reloaded whenever the selected note's `_id` changes.
  - It parses tags on save, picks the status label, appends dictated speech and a video summary to the content, and picks the alert text for a failed upload.

Files:

- `notes.dfy` (`Notes`): the values both components exchange. A note is a JSON object with an optional `_id` and optional tags. There are three views.
- `text.dfy` (`Text`): the JavaScript built-ins the two components rely on, written out: `trim` over ECMAScript's whitespace set, `split` on one character, and `join`.
- `app.dfy` (`App`): the list operations as functions, and `class AppState`. Its methods are the handlers of the top-level component.
  - No request is performed. Each handler returns the requests it issues, in order, as `Request` values, and takes the servers' answers as parameters. A `None` answer is a failed request.
- `note_editor.dfy` (`NoteEditor`): tag parsing, the draft note, the dictation loop, the upload alert, the toolbar labels, and `class Editor`.
  - Each method of the class is one handler or one effect run of the component.
  - Time is an abstract clock `now`, which `Elapse` advances.
  - The pending timer stores the note and the draft that its `handleSave` closure captured.
  - `Valid()` is the class invariant:
    - at most one timer is pending;
    - the pending timer belongs to a dirty draft;
    - it fires `AutosaveDelay` (2000 ms) after the last change of the autosave effect's dependencies;
    - it carries the current draft.
- `scenarios.dfy` (`Scenarios`): runs over several steps, each ending in what the user sees:
  - a burst of keystrokes autosaves exactly once;
  - the life of a new note;
  - an optimistic star;
  - a permanent delete;
  - a restore;
  - the places where the editor sends text twice, late, or after it was discarded, and a toggle that stops flipping the list's star.

The code behaves as follows in places where a reader would expect otherwise; the model follows the code:

- A save that succeeds marks the draft clean, even if the user typed while it was in flight. That change of the dirty flag cancels the timer the typing armed. For a note that already has an `_id`, when the save succeeds within `AutosaveDelay` of the last key, the text is therefore not sent until the next edit, and meanwhile the label reads "Saved" (`Scenarios.EditDuringSaveWaitsForNextEdit`). When the save is still in flight once the typing's own timer is due, that timer sends the typed text (`Scenarios.EditDuringSlowSave`). For a new note the text is lost: the creation's reply gives the selection an `_id`, so the load effect runs and overwrites the draft with the reply, and no timer is left to send the text (`Scenarios.NewNoteEditLostOnReply`); if the reply takes longer than the delay, the typing's own timer sends a second creation instead.
- The save button does not cancel a pending autosave. If the clicked save is still in flight, or has failed, when the autosave deadline arrives, the same draft is sent a second time; for a new note, that means two creations (`Scenarios.ManualSaveThenTimer`). A clicked save that succeeds before the deadline cancels the timer through the dirty flag (`Scenarios.ManualSaveSettledFirst`).
- Clearing the selection does not always cancel a pending autosave. When the selected note has an `_id` and the draft fields are already empty, the load effect changes none of the autosave effect's dependencies (`Scenarios.ClearedSelectionStillAutosaves`). When the selection is a never-saved draft (cleared by its delete button, which calls `handleDeleteNote` with no `_id`), `note?._id` stays absent, so the load effect does not run at all: the fields, the dirty flag and the timer survive, the timer creates the discarded draft, and a new note opened before that creation is answered starts with the discarded text (`Scenarios.DiscardedDraftStillAutosaves`). The reply is handled like any save: it selects the discarded draft again, now carrying its server `_id`, and a new note opened after the reply starts empty (`Scenarios.DiscardedDraftReselected`).
- `handleSaveNote` catches its own errors, so with the top-level component's `onSave`, the editor's failure branch never runs: `FinishSave(false)` is reachable only with another `onSave`.
- The favourite toggle writes a flipped copy of the note it is given over every entry with that `_id`. It does not flip each entry's own flag. The lemmas that only `isFavorite` changes (`App.ToggleFlipsFavoriteOnly`) and that a second toggle restores the list (`App.ToggleTwiceRestores`) therefore assume those entries equal the given note (`App.Consistent`). That holds when the editor's note was selected from the list and nothing has reloaded the list since. It fails after a failed toggle: the reload restores the entry while the selection keeps the flipped copy, and the next click on the editor's star writes the original entry back, so the list's star does not move (`Scenarios.FailedToggleStaleSelection`).

## Model

| member | source | states |
|---|---|---|
| App.InCurrentView | src/App.jsx:46-48 | definition of the save-time membership test; `App.MembershipAgreesWithFilter` states what it accepts in each view |
| App.ShownIn | src/App.jsx:143-147 | definition of the render-time filter test; `App.MembershipAgreesWithFilter` states it equals `App.InCurrentView`, and `App.FilterView` that the list shows exactly the notes it accepts |
| App.MembershipAgreesWithFilter | src/App.jsx:46-48 | the save-time membership test agrees with the render-time filter for every view and note; `all` shows exactly the untrashed notes, `favorites` the starred untrashed ones, `trash` the trashed ones |
| App.FilterView | src/App.jsx:143-147 | the notes shown are at most the list, and a note is shown iff it is in the list and passes the view's test |
| App.FilterViewAppend | src/App.jsx:143-147 | the display filter keeps list order: it distributes over concatenation |
| App.ReplaceById | src/App.jsx:54 | same length; each entry with the saved note's `_id` becomes the saved note, every other entry stays at its index |
| App.RemoveById | src/App.jsx:52 | removal never lengthens the list |
| App.RemoveByIdKeeps | src/App.jsx:52 | removal keeps exactly the entries whose `_id` differs; a list without that `_id` is returned unchanged |
| App.RemoveByIdAppend | src/App.jsx:82 | removal keeps the order of the remaining notes (distributes over concatenation) |
| App.SavePatch | src/App.jsx:45-58 | the four cases of the list patch after a save: update and still in view replaces by `_id`; update and out of view is `App.RemoveById` of the list, so exactly the entries with another `_id` remain, in their order; creation in view puts the note at the head; creation out of view leaves the list |
| App.RemoveRendersLikeReplace | src/App.jsx:50-54 | for a note that left the view, dropping its entries renders the same list as overwriting them |
| App.SaveRendersAsApplied | src/App.jsx:44-58 | after any save, the view shows what it would show had the returned note simply been written into the list (over its `_id`, or at the head) |
| App.Flipped | src/App.jsx:93 | the copy differs from the note in `isFavorite` and in nothing else |
| App.ToggledList | src/App.jsx:95 | the optimistic list has the length of the list |
| App.ToggleFlipsFavoriteOnly | src/App.jsx:93-95 | when the entries with the note's `_id` are that note, the toggle flips `isFavorite` on exactly those entries and leaves every other entry |
| App.ToggleTwiceRestores | src/App.jsx:91-105 | when the entries with the note's `_id` are that note, toggling it and then its toggled copy gives back the original list |
| App.UnfavoritedLeavesFavorites | src/App.jsx:95 | under `favorites`, unstarring a note hides every entry with its `_id` before the request is answered |
| App.IsBlank | src/App.jsx:109 | definition of `!query.trim()`; `App.BlankIsAllWhitespace` states it holds exactly for all-whitespace queries |
| App.BlankIsAllWhitespace | src/App.jsx:109 | a query is blank iff it consists of whitespace only |
| App.FetchRequest | src/App.jsx:19 | the trash endpoint is fetched exactly under the trash view, the base endpoint otherwise |
| App.SaveRequest | src/App.jsx:34-42 | a note with a truthy `_id` is PUT to its `_id`; any other is POSTed; the body is the note |
| App.IdPath | src/App.jsx:100 | definition of the `_id` as interpolated into the URL (the word `undefined` when absent); `App.AppState.ToggleFavorite` states the PUT goes to this path |
| App.ConfirmPrompt | src/App.jsx:73-76 | the permanent-delete wording exactly when the selected note is trashed, the move-to-trash wording otherwise |
| App.NewDraft | src/App.jsx:124-129 | the new draft has no `_id`, empty title and content, an empty tag array, and is neither starred nor trashed |
| App.Reloaded | src/App.jsx:21 | definition of a reload that keeps the list when the request fails; `App.AppState.FetchNotes`, `SelectView`, `DeleteNote`, `ToggleFavorite` and `Search` state when it is applied |
| App.AppState.constructor | src/App.jsx:10-15 | the initial state: no notes, view `all`, no selection, empty query, list pane (the mount fetch of the view effect is a separate `FetchNotes` call) |
| App.AppState.Shown | src/App.jsx:143-147 | definition of the rendered `filteredNotes`, the filter of the current view over the list; `App.FilterView` states what it shows |
| App.AppState.FetchNotes | src/App.jsx:17-25 | one GET of the current view's endpoint; the list is replaced on success and kept on failure; nothing else changes |
| App.AppState.SelectView | src/App.jsx:27-29 | the view becomes the chosen one; a fetch of the new view happens iff the view changed |
| App.AppState.SaveNote | src/App.jsx:31-64 | one PUT or POST; on success the list is the `SavePatch` of the old list and the selection is the returned note; on failure nothing changes |
| App.AppState.DeleteNote | src/App.jsx:66-89 | a falsy id only clears the selection and shows the list; otherwise the prompt is chosen from the selection; declining changes nothing; a successful DELETE drops the `_id` and clears the selection; a failed one reloads the view |
| App.AppState.ToggleFavorite | src/App.jsx:91-105 | the optimistic list and selection are patched before the PUT of the flipped note; a failed PUT reloads the view |
| App.AppState.Search | src/App.jsx:107-121 | the query is stored; a blank query reloads the view, any other goes to the search endpoint; the answer replaces the list |
| App.AppState.AddNote | src/App.jsx:123-131 | the new draft is selected and the editor pane shown |
| App.AppState.SelectNote | src/App.jsx:133-136 | the note is selected and the editor pane shown |
| App.AppState.BackToList | src/App.jsx:138-140 | the list pane is shown |
| Text.LeadingWhitespace | src/components/NoteEditor.jsx:59 | counts exactly the whitespace run at the front of the text |
| Text.TrailingWhitespace | src/components/NoteEditor.jsx:59 | counts exactly the whitespace run at the back of the text |
| Text.Trim | src/components/NoteEditor.jsx:59 | the result is the middle of the text after its leading whitespace, only whitespace follows it, it has no whitespace at either end, and it is empty iff the text is all whitespace |
| Text.TrimOfTrimmed | src/components/NoteEditor.jsx:59 | trimming a text without whitespace at its ends gives it back |
| Text.TrimIdempotent | src/components/NoteEditor.jsx:59 | trimming twice is trimming once |
| Text.TrimAfterWhitespace | src/components/NoteEditor.jsx:59 | whitespace in front of a text does not change its trim |
| Text.Split | src/components/NoteEditor.jsx:59 | splitting gives at least one piece |
| Text.SplitPiecesLackSeparator | src/components/NoteEditor.jsx:59 | no piece contains the separator |
| Text.Join | src/components/NoteEditor.jsx:27 | definition of `Array.prototype.join`; `Text.JoinSplit` states it undoes `Text.Split`, and `NoteEditor.ParseJoinedTags` that parsing undoes it for well-formed tags |
| Text.JoinSplit | src/components/NoteEditor.jsx:59 | joining the pieces with the separator gives the text back |
| Text.SplitWithoutSeparator | src/components/NoteEditor.jsx:59 | a text without the separator is one piece |
| Text.SplitAround | src/components/NoteEditor.jsx:59 | the pieces of `a + sep + b` are the pieces of `a` followed by those of `b` |
| NoteEditor.TagsText | src/components/NoteEditor.jsx:27 | definition of the tag field loaded from a note; `NoteEditor.ParseJoinedTags` states parsing it gives back well-formed tags, and `NoteEditor.UntouchedDraftIsNote` that an untouched draft saves the note unchanged |
| NoteEditor.KeepTrimmed | src/components/NoteEditor.jsx:59 | definition of `.map(t => t.trim()).filter(t => t)`; `NoteEditor.KeepTrimmedWellFormed` states what it keeps and `NoteEditor.KeepTrimmedAppend` that it distributes over concatenation |
| NoteEditor.ParseTags | src/components/NoteEditor.jsx:59 | definition of the tag parse; `NoteEditor.ParsedTagsWellFormed`, `ParseTagsAround`, `ParseTagsAfterWhitespace`, `ParseTagsSingle`, `ParseTagsEmpty` and `ParseJoinedTags` state its meaning |
| NoteEditor.TrimKeepsOut | src/components/NoteEditor.jsx:59 | trimming adds no character to a text |
| NoteEditor.KeepTrimmedWellFormed | src/components/NoteEditor.jsx:59 | the trim-and-drop-empty step keeps at most as many pieces, each non-empty and without whitespace at its ends, and comma-free when the pieces were |
| NoteEditor.KeepTrimmedAppend | src/components/NoteEditor.jsx:59 | the trim-and-drop-empty step keeps order: it distributes over concatenation |
| NoteEditor.ParsedTagsWellFormed | src/components/NoteEditor.jsx:59 | every tag a save sends is non-empty, has no comma and is its own trim |
| NoteEditor.ParseTagsAround | src/components/NoteEditor.jsx:59 | the tags of the text before a comma come first, in order, then those after it |
| NoteEditor.ParseTagsAfterWhitespace | src/components/NoteEditor.jsx:59 | whitespace in front of the tag field changes no tag |
| NoteEditor.ParseTagsSingle | src/components/NoteEditor.jsx:59 | a comma-free, trimmed, non-empty field is exactly one tag |
| NoteEditor.ParseTagsEmpty | src/components/NoteEditor.jsx:59 | an empty tag field sends no tag |
| NoteEditor.ParseJoinedTags | src/components/NoteEditor.jsx:27 | round trip: the field a note loads with parses back to the note's tags when each tag is non-empty, comma-free and trimmed |
| NoteEditor.DraftNote | src/components/NoteEditor.jsx:61-66 | definition of the object passed to `onSave`; `NoteEditor.DraftOverridesOnlyText` and `NoteEditor.UntouchedDraftIsNote` state its meaning |
| NoteEditor.DraftOverridesOnlyText | src/components/NoteEditor.jsx:59-66 | the note sent carries the draft's title, content and parsed tags and every other field of the note (its `_id`, flags, timestamp); with no note it has no `_id` and both flags off |
| NoteEditor.UntouchedDraftIsNote | src/components/NoteEditor.jsx:23-35 | saving an untouched draft of a note with well-formed tags sends the note back unchanged (missing tags come back empty) |
| NoteEditor.Piece | src/components/NoteEditor.jsx:138-140 | definition of what one result adds to the transcript; `NoteEditor.FinalTextStep` states each visited result adds it |
| NoteEditor.FinalText | src/components/NoteEditor.jsx:137-140 | definition of the transcript of a run of results; `NoteEditor.FinalTextEmpty` and `NoteEditor.FinalTextAppend` state its meaning, and `NoteEditor.AssembleTranscript` that the loop computes it |
| NoteEditor.Pending | src/components/NoteEditor.jsx:137 | the results the loop visits are those from `resultIndex` on, none when the index is past the end |
| NoteEditor.FinalTextEmpty | src/components/NoteEditor.jsx:142 | the transcript is empty iff no visited result is final |
| NoteEditor.FinalTextAppend | src/components/NoteEditor.jsx:136-141 | the transcript of two batches is the two transcripts in order |
| NoteEditor.FinalTextStep | src/components/NoteEditor.jsx:137-140 | visiting one more result appends its piece |
| NoteEditor.AssembleTranscript | src/components/NoteEditor.jsx:136-141 | the loop's transcript is, in order, the text of each final result from `resultIndex` on, each followed by a blank |
| NoteEditor.ErrorMessage | src/components/NoteEditor.jsx:103 | the first of details, error and message that is a non-empty string, else "Unknown error"; never empty |
| NoteEditor.AlertNamesReason | src/components/NoteEditor.jsx:104 | the alert is the prefix followed by a non-empty reason |
| NoteEditor.StatusLabel | src/components/NoteEditor.jsx:199-213 | "Saving..." iff saving; "Unsaved" iff dirty and not saving; "Saved" iff neither and the note has an `_id`; nothing otherwise |
| NoteEditor.SaveEnabled | src/components/NoteEditor.jsx:274 | definition of the enabled save button; `NoteEditor.SaveEnabledWhenUnsaved` states it is enabled exactly when the label reads "Unsaved" |
| NoteEditor.SaveEnabledWhenUnsaved | src/components/NoteEditor.jsx:274 | the save button is enabled exactly when the label reads "Unsaved" |
| NoteEditor.RestoreBody | src/components/NoteEditor.jsx:252 | the restored note is not trashed and differs from the loaded note in nothing else |
| NoteEditor.IdOf | src/components/NoteEditor.jsx:35 | definition of the load effect's dependency `note?._id`; `NoteEditor.Editor.Receive` states the draft is reset exactly when it changes |
| NoteEditor.Editor.Armed | src/components/NoteEditor.jsx:37-46 | definition of the timer the autosave effect arms; `NoteEditor.Editor.AutosaveEffect` and the edit methods state when it replaces the pending one |
| NoteEditor.Editor.constructor | src/components/NoteEditor.jsx:10-35 | the mount: the draft is loaded from the note (empty without one), all flags off, no timer |
| NoteEditor.Editor.AutosaveEffect | src/components/NoteEditor.jsx:36-52 | unchanged dependencies keep the timer; changed ones clear it, then arm one for `AutosaveDelay` from now iff a note is loaded and the draft is dirty |
| NoteEditor.Editor.Receive | src/components/NoteEditor.jsx:23-35 | the same `_id` keeps the whole draft and timer; a new note resets the draft and both flags and cancels the timer; no note empties the fields, keeps the flags, and keeps the timer only if the fields were already empty |
| NoteEditor.Editor.EditTitle | src/components/NoteEditor.jsx:75-78 | with a note loaded, the title is set, the draft is dirty, the rest is kept; the timer is re-armed unless nothing changed |
| NoteEditor.Editor.EditContent | src/components/NoteEditor.jsx:80-83 | with a note loaded, the content is set, the draft is dirty, the rest is kept; the timer is re-armed unless nothing changed |
| NoteEditor.Editor.EditTags | src/components/NoteEditor.jsx:292-295 | with a note loaded, the tag field is set, the draft is dirty, the rest is kept; the timer is re-armed unless nothing changed |
| NoteEditor.Editor.HandleSave | src/components/NoteEditor.jsx:55-66 | a closure that saw a clean draft sends nothing; otherwise it sets saving and sends its note with its draft over it |
| NoteEditor.Editor.ClickSave | src/components/NoteEditor.jsx:272-274 | with a note loaded, an enabled button sends the current draft over the current note and sets saving; a disabled one does nothing; the timer is left as it was |
| NoteEditor.Editor.FinishSave | src/components/NoteEditor.jsx:67-72 | saving ends; a success marks the draft clean (and so clears the timer of a dirty draft); a failure keeps the dirty flag and the timer |
| NoteEditor.Editor.Fire | src/components/NoteEditor.jsx:43-45 | the timer is consumed and its captured closure sends the captured note with the captured draft |
| NoteEditor.Editor.Elapse | src/components/NoteEditor.jsx:43-45 | the clock advances; the timer fires iff its deadline falls within the interval, and then sends its captured draft |
| NoteEditor.Editor.OnSpeechResult | src/components/NoteEditor.jsx:135-146 | the transcript is appended to the content; the draft becomes dirty iff some visited result is final; an empty transcript changes nothing |
| NoteEditor.Editor.BeginUpload | src/components/NoteEditor.jsx:86 | uploading is set |
| NoteEditor.Editor.FinishUpload | src/components/NoteEditor.jsx:98-107 | a summary is appended and makes the draft dirty; a failure gives the alert text and changes no field; uploading ends either way |
| Scenarios.TypingBurst | src/components/NoteEditor.jsx:36-52 | keys typed closer together than the delay send nothing during the burst and one save, carrying the whole text, the delay after the last key, which is typed at `start + (|keys| - 1) * gap` |
| Scenarios.TypedAll | src/components/NoteEditor.jsx:80-83 | the content after `i` keys is the text followed by the first `i` keys |
| Scenarios.KeyTimeIs | src/components/NoteEditor.jsx:36-52 | key `i` of a burst is typed `i` gaps after its start |
| Scenarios.TypeKey | src/components/NoteEditor.jsx:80-83 | one key re-arms the timer for the delay after the key, and a shorter pause does not fire it |
| Scenarios.AutosaveNewDraft | src/App.jsx:123-131 | a title typed into the added draft is autosaved as a note without `_id` |
| Scenarios.FirstSaveOfNewNote | src/App.jsx:31-64 | a new note is POSTed once, lands at the head of the `all` list with the server's `_id`, and the editor shows it as saved |
| Scenarios.FavoriteInAllView | src/App.jsx:91-105 | under `all`, the star shows on the list entry and on the selection before the PUT returns |
| Scenarios.PermanentDelete | src/App.jsx:66-89 | from the trash view, the permanent-delete prompt is shown; after the DELETE, the list is empty and nothing is selected |
| Scenarios.RestoreLeavesTrash | src/components/NoteEditor.jsx:250-258 | a restore from the trash view PUTs the note without the trash flag and drops its entries from the list, keeping the rest |
| Scenarios.EditDuringSaveWaitsForNextEdit | src/components/NoteEditor.jsx:67-72 | for a note that has an `_id`, text typed during a successful save is not in the saved note, no save is pending and the label reads "Saved"; the autosave of the next edit sends it |
| Scenarios.NewNoteEditLostOnReply | src/components/NoteEditor.jsx:23-29 | for a new note, the creation's reply is selected with an `_id`, the load effect overwrites the draft with it, so the text typed during the POST is gone and no save is pending |
| Scenarios.EditDuringSlowSave | src/components/NoteEditor.jsx:36-52 | text typed while a save is still in flight is sent by the typing's own timer when that timer comes due first |
| Scenarios.ManualSaveThenTimer | src/components/NoteEditor.jsx:272-274 | with the clicked save still unsettled at the deadline, the pending autosave sends the same draft again |
| Scenarios.ManualSaveSettledFirst | src/components/NoteEditor.jsx:36-52 | a clicked save that succeeds before the deadline cancels the pending autosave |
| Scenarios.FailedToggleStaleSelection | src/App.jsx:91-105 | after a failed toggle, the selection no longer equals its list entry, and toggling it again leaves the list as it was |
| Scenarios.DiscardedDraftStillAutosaves | src/App.jsx:66-71 | deleting a never-saved draft keeps its timer pending; the timer sends the discarded draft, and a new note opened before the reply opens with its title |
| Scenarios.DiscardedDraftReselected | src/App.jsx:60 | the reply to that creation selects the discarded draft again with its server `_id`, and a new note opened afterwards starts empty |
| Scenarios.ClearedSelectionStillAutosaves | src/components/NoteEditor.jsx:30-34 | with empty fields, clearing the selection keeps the timer, which later sends the deselected note |

## Left out

- HTTP and the server are not modelled. Each request is a `Request` value, and its answer is a method parameter. The URL base (`API_BASE`) is not modelled.
- Interleaving of concurrent requests is not modelled. Each handler runs to completion with its answers given. Functional `setNotes(prev => …)` updates and stale closures across overlapping requests are therefore not modelled.
  - The toggle builds its list from the `notes` of its render rather than from `prev`. The list is built before the PUT, so an update that lands during the PUT is applied after it and kept; the two differ only for an update that is queued but not yet rendered when the user clicks.
- App.AppState.SaveNote: an autosave is checked against the current view. In the source, the timer's `handleSave` calls the `onSave` of the render that armed it, so `handleSaveNote` tests membership against the view active when the timer was set. After a view switch between the key and the timer, the model can leave out of the list a note the source puts into it, or the reverse.
- The fetch that a failed delete, toggle or blank search triggers runs as part of the same method, answered by a parameter. In the source it is not awaited.
- Real timers and `clearTimeout` are not modelled. Time is a natural-number clock advanced by `Elapse`, with a single timer slot.
- The speech recognition lifecycle is not modelled: `toggleRecording`, `isRecording`, `onerror`, `onend` and the browser-support alert. `onresult` is modelled, taking only the first alternative of each result, as the source does.
- The file picker (`handleVideoUpload`, the missing-file return, resetting the input) and the multipart body of the upload are not modelled. The upload's outcome is a parameter. The video recorder component, the sidebar, the note list, the config module and the sidebar's open state are not part of this model.
- Markdown preview, the preview toggle, layout and styling are not modelled.
- `console.error` logging is not modelled.
- Strings are sequences of `char`. Nothing relies on their encoding.
- `isFavorite`, `isTrashed` and `_id` are modelled as present-or-absent rather than as arbitrary JSON values. A server reply lacking them is not modelled beyond "absent reads as false or no id".
- Server replies are assumed well-typed: every list reply (of a fetch or a search) is an array of notes, and `summary`, `details`, `error`, titles and contents are strings. So the `[]` branch of the `Array.isArray(notes)` guard of `filteredNotes` cannot arise in the model, a summary that is not a string (appended as "undefined" when missing) is not modelled, and a truthy non-string `details` or `error` is not modelled.
- App.ToggledList: its own contract states only the length. What the toggle does to each entry is stated by `App.ToggleFlipsFavoriteOnly`, under the premise that the entries with the note's `_id` equal the note.
