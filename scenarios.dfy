/** Runs of the two components over several steps, each stating what a user
    sees at the end: the debounce of a burst of keystrokes, the life of a new
    note from the add button to its first save, the optimistic favourite, a
    permanent delete from the trash, and a cleared selection. */
module Scenarios {
  import opened Notes
  import opened Text
  import opened App
  import opened NoteEditor

  /** Typing `keys` into the content of the loaded note `n`, one key every
      `gap` milliseconds with `gap` shorter than the autosave delay, sends no
      save during the burst and exactly one, `AutosaveDelay` after the last
      key, carrying the whole text. */
  method TypingBurst(n: Note, start: nat, keys: string, gap: nat)
    returns (duringBurst: seq<Option<Note>>, lastKeyAt: nat, last: Option<Note>, firedAt: nat)
    requires keys != [] && gap < AutosaveDelay
    ensures |duringBurst| == |keys| && forall k :: 0 <= k < |duringBurst| ==> duringBurst[k] == None
    ensures lastKeyAt == start + (|keys| - 1) * gap
    ensures last == Some(DraftNote(Some(n), n.title, n.content + keys, TagsText(n.tags)))
    ensures firedAt == lastKeyAt + AutosaveDelay
  {
    var e := new Editor(Some(n), start);
    lastKeyAt := start;
    var sent := TypeKey(e, n, keys[0], gap);
    duringBurst := [sent];
    var i := 1;
    while i < |keys|
      invariant 1 <= i <= |keys|
      invariant e.Valid() && e.note == Some(n) && !e.isSaving
      invariant e.title == n.title && e.tags == TagsText(n.tags) && e.content == Typed(n.content, keys, i)
      invariant e.now == lastKeyAt + gap && lastKeyAt == KeyTime(start, i - 1, gap)
      invariant e.timer.Some? && e.timer.value.note == n && e.timer.value.deadline == lastKeyAt + AutosaveDelay
      invariant |duringBurst| == i && forall k :: 0 <= k < i ==> duringBurst[k] == None
    {
      lastKeyAt := e.now;
      sent := TypeKey(e, n, keys[i], gap);
      duringBurst := duringBurst + [sent];
      i := i + 1;
    }
    TypedAll(n.content, keys, |keys|);
    last := e.Elapse(AutosaveDelay - gap);
    firedAt := e.now;
    KeyTimeIs(start, |keys| - 1, gap);
  }

  /** The content after the first `i` keys of `keys` were typed after `text`. */
  function Typed(text: string, keys: string, i: nat): string
    requires i <= |keys|
  {
    if i == 0 then text else Typed(text, keys, i - 1) + [keys[i - 1]]
  }

  lemma {:induction false} TypedAll(text: string, keys: string, i: nat)
    requires i <= |keys|
    ensures Typed(text, keys, i) == text + keys[..i]
    ensures i == |keys| ==> Typed(text, keys, i) == text + keys
  {
    assert keys[..|keys|] == keys;
    if i > 0 {
      TypedAll(text, keys, i - 1);
      assert keys[..i] == keys[..i - 1] + [keys[i - 1]];
    }
  }

  /** The time of key `i` of a burst that starts at `start`, one key every `gap`. */
  function KeyTime(start: nat, i: nat, gap: nat): nat {
    if i == 0 then start else KeyTime(start, i - 1, gap) + gap
  }

  lemma {:induction false} KeyTimeIs(start: nat, i: nat, gap: nat)
    ensures KeyTime(start, i, gap) == start + i * gap
  {
    if i > 0 {
      KeyTimeIs(start, i - 1, gap);
      assert (i - 1) * gap + gap == i * gap;
    }
  }

  /** One key typed into the content, then a pause of `gap`: the timer is
      re-armed at the key and does not fire during the pause. */
  method TypeKey(e: Editor, n: Note, key: char, gap: nat) returns (sent: Option<Note>)
    requires e.Valid() && e.note == Some(n) && !e.isSaving && gap < AutosaveDelay
    modifies e
    ensures sent == None
    ensures e.Valid() && e.note == Some(n) && !e.isSaving
    ensures e.title == old(e.title) && e.tags == old(e.tags) && e.content == old(e.content) + [key]
    ensures e.now == old(e.now) + gap
    ensures e.timer.Some? && e.timer.value.note == n && e.timer.value.deadline == old(e.now) + AutosaveDelay
  {
    e.EditContent(e.content + [key]);
    assert e.timer.Some? && e.timer.value.deadline == e.now + AutosaveDelay;
    sent := e.Elapse(gap);
  }

  /** The add button, then a title typed into the draft and left alone
      until the autosave fires: the draft it sends is a new note. */
  method AutosaveNewDraft(app: AppState, ed: Editor, newTitle: string) returns (draft: Note)
    requires ed.Valid() && ed.now == 0 && ed.note == app.selected && app.selected == None
    requires ed.title == "" && ed.content == "" && ed.tags == "" && !ed.isDirty && !ed.isSaving
    modifies app, ed
    ensures ed.Valid() && ed.isSaving && ed.isDirty && ed.note == app.selected
    ensures app.notes == old(app.notes) && app.view == old(app.view)
    ensures draft.title == newTitle && !HasId(draft) && !draft.isTrashed && draft.id == None
  {
    app.AddNote();
    ed.Receive(app.selected);
    ed.EditTitle(newTitle);
    var body := ed.Elapse(AutosaveDelay);
    draft := body.value;
  }

  /** A new note: the add button selects an empty draft, the user types a
      title, the autosave creates the note, the server names it `newId`, and
      the editor reloads it. The note lands at the head of the list of the
      `all` view and the editor shows it clean. */
  method FirstSaveOfNewNote(existing: seq<Note>, newTitle: string, newId: string, stamp: string)
    returns (sent: seq<Request>, notes: seq<Note>, shown: Option<Note>, status: string)
    requires newTitle != "" && newId != ""
    ensures |sent| == 2 && sent[0] == ListNotes && sent[1].CreateNote?
    ensures sent[1].body.title == newTitle && !HasId(sent[1].body)
    ensures notes == [sent[1].body.(id := Some(newId), createdAt := Some(stamp))] + existing
    ensures shown == Some(notes[0])
    ensures status == SavedLabel
  {
    var app := new AppState();
    sent := app.FetchNotes(Some(existing));
    var ed := new Editor(app.selected, 0);
    var draft := AutosaveNewDraft(app, ed, newTitle);
    var saved := draft.(id := Some(newId), createdAt := Some(stamp));
    var req := app.SaveNote(draft, Some(saved));
    assert app.notes == [saved] + existing;
    sent := sent + req;
    ed.FinishSave(true);
    ed.Receive(app.selected);
    assert ed.note == Some(saved) && !ed.isDirty && !ed.isSaving;
    notes := app.notes;
    shown := ed.note;
    status := StatusLabel(ed.isSaving, ed.isDirty, ed.note.value);
  }

  /** Under the `all` view, starring the selected note keeps it listed and
      shows the star on the selection at once, before the PUT returns. */
  method FavoriteInAllView(n: Note)
    returns (shownBefore: seq<Note>, shownAfter: seq<Note>, selection: Option<Note>)
    requires HasId(n) && !n.isFavorite && !n.isTrashed
    ensures shownBefore == [n] && shownAfter == [n.(isFavorite := true)]
    ensures selection == Some(n.(isFavorite := true))
  {
    var app := new AppState();
    var _ := app.FetchNotes(Some([n]));
    shownBefore := app.Shown();
    app.SelectNote(n);
    var _ := app.ToggleFavorite(n, true, None);
    shownAfter := app.Shown();
    selection := app.selected;
  }

  /** Deleting a trashed note from the trash view asks for a permanent
      delete and, once confirmed and done, removes it and clears the selection. */
  method PermanentDelete(n: Note, id: string)
    returns (prompt: Option<string>, sent: seq<Request>, notes: seq<Note>, selection: Option<Note>, pane: Pane)
    requires id != "" && n.id == Some(id) && n.isTrashed
    ensures prompt == Some(TrashPrompt)
    ensures sent == [ListNotes, ListTrash, RemoveNote(id)]
    ensures notes == [] && selection == None && pane == ListPane
  {
    var app := new AppState();
    var r0 := app.FetchNotes(Some([]));
    var r1 := app.SelectView(Trash, Some([n]));
    app.SelectNote(n);
    var r2;
    prompt, r2 := app.DeleteNote(n.id, true, true, None);
    sent := r0 + r1 + r2;
    notes, selection, pane := app.notes, app.selected, app.mobileView;
  }

  /** Text typed while an autosave is in flight is left unsaved: the success
      of that save marks the draft clean, which cancels the timer the typing
      armed, and the label reads "Saved" over text the server has not seen.
      The text goes out only with the autosave of the next edit. */
  method EditDuringSaveWaitsForNextEdit(n: Note, extra: string)
    returns (sent: Option<Note>, held: string, pending: bool, status: string, next: Option<Note>)
    requires HasId(n) && extra != []
    ensures sent.Some? && sent.value.content == n.content
    ensures held == n.content + extra && held != sent.value.content
    ensures !pending && status == SavedLabel
    ensures next.Some? && next.value.content == held
  {
    var e := new Editor(Some(n), 0);
    e.EditTitle(n.title + "!");
    sent := e.Elapse(AutosaveDelay);
    e.EditContent(e.content + extra);
    e.FinishSave(true);
    held, pending := e.content, e.timer.Some?;
    status := StatusLabel(e.isSaving, e.isDirty, n);
    assert |held| == |n.content| + |extra|;
    e.EditTitle(n.title + "!!");
    next := e.Elapse(AutosaveDelay);
    DraftOverridesOnlyText(Some(n), n.title + "!!", held, TagsText(n.tags));
  }

  /** For a new note the typed text is lost outright: the creation's reply
      gives the selection an `_id`, so the load effect runs and overwrites the
      draft with the reply, and no timer is left to send the text. */
  method NewNoteEditLostOnReply(title: string, extra: string, newId: string)
    returns (sent: Option<Note>, saved: Option<Note>, content: string, pending: bool)
    requires title != "" && extra != "" && newId != ""
    ensures sent.Some? && !HasId(sent.value) && sent.value.title == title && sent.value.content == ""
    ensures saved.Some? && saved.value.id == Some(newId) && saved.value.content == ""
    ensures content == "" && !pending
  {
    var app := new AppState();
    var ed := new Editor(app.selected, 0);
    app.AddNote();
    ed.Receive(app.selected);
    ed.EditTitle(title);
    sent := ed.Elapse(AutosaveDelay);
    ed.EditContent(extra);
    var _ := app.SaveNote(sent.value, Some(sent.value.(id := Some(newId))));
    ed.FinishSave(true);
    ed.Receive(app.selected);
    saved, content, pending := app.selected, ed.content, ed.timer.Some?;
  }

  /** When the first save is still in flight `AutosaveDelay` after the typing,
      the typing's own timer fires and sends the typed text. */
  method EditDuringSlowSave(n: Note, extra: string) returns (first: Option<Note>, second: Option<Note>)
    requires extra != []
    ensures first.Some? && first.value.content == n.content
    ensures second.Some? && second.value.content == n.content + extra
  {
    var e := new Editor(Some(n), 0);
    e.EditTitle(n.title + "!");
    first := e.Elapse(AutosaveDelay);
    assert |e.content + extra| == |e.content| + |extra|;
    e.EditContent(e.content + extra);
    second := e.Elapse(AutosaveDelay);
  }

  /** A click on the save button leaves the pending autosave armed (the saving
      flag is not one of its dependencies): while the clicked save is still in
      flight at the deadline, the same draft is sent a second time; for a new
      note, two creations. */
  method ManualSaveThenTimer(n: Note) returns (clicked: Option<Note>, timed: Option<Note>)
    ensures clicked.Some? && timed == clicked
    ensures clicked.value.title == n.title + "!"
  {
    var e := new Editor(Some(n), 0);
    e.EditTitle(n.title + "!");
    clicked := e.ClickSave();
    timed := e.Elapse(AutosaveDelay);
    DraftOverridesOnlyText(Some(n), n.title + "!", n.content, TagsText(n.tags));
  }

  /** When the clicked save succeeds before the deadline, the draft turns
      clean and that change of the dirty flag cancels the pending autosave. */
  method ManualSaveSettledFirst(n: Note) returns (clicked: Option<Note>, timed: Option<Note>)
    ensures clicked.Some? && timed == None
  {
    var e := new Editor(Some(n), 0);
    e.EditTitle(n.title + "!");
    clicked := e.ClickSave();
    e.FinishSave(true);
    timed := e.Elapse(AutosaveDelay);
  }

  /** After a failed toggle the reload restores the list entry, but the
      selection keeps the flipped copy; the next click on the star of the
      editor then writes the original entry back, so the list's star does not
      move. */
  method FailedToggleStaleSelection(n: Note)
    returns (consistent: bool, listAfterRetry: seq<Note>)
    ensures !consistent
    ensures listAfterRetry == [n]
  {
    var app := new AppState();
    var _ := app.FetchNotes(Some([n]));
    app.SelectNote(n);
    var _ := app.ToggleFavorite(n, false, Some([n]));
    consistent := Consistent(app.notes, app.selected.value);
    assert app.notes[0].id == app.selected.value.id && app.notes[0] != app.selected.value;
    var _ := app.ToggleFavorite(app.selected.value, true, None);
    listAfterRetry := app.notes;
  }

  /** Deleting a draft that was never saved goes through `handleDeleteNote`
      with no `_id`, which clears the selection; but `note?._id` stays absent,
      so the load effect does not run: the draft fields, the dirty flag and the
      pending autosave all survive. The timer creates the discarded draft, and
      the next new note opens with its text. */
  method DiscardedDraftStillAutosaves(title: string)
    returns (pending: bool, late: Option<Note>, reopened: string)
    requires title != ""
    ensures pending
    ensures late == Some(DraftNote(Some(NewDraft()), title, "", ""))
    ensures reopened == title
  {
    var app := new AppState();
    var ed := new Editor(app.selected, 0);
    app.AddNote();
    ed.Receive(app.selected);
    ed.EditTitle(title);
    var _, _ := app.DeleteNote(app.selected.value.id, true, true, None);
    ed.Receive(app.selected);
    pending := ed.timer.Some?;
    late := ed.Elapse(AutosaveDelay);
    app.AddNote();
    ed.Receive(app.selected);
    reopened := ed.title;
  }

  /** The creation the surviving timer sends for a discarded draft is answered
      like any save: the reply becomes the selection, so the discarded draft
      comes back with its server `_id`, and a new note opened after that reply
      starts empty. */
  method DiscardedDraftReselected(title: string, newId: string)
    returns (reselected: Option<Note>, reopened: string)
    requires title != "" && newId != ""
    ensures reselected.Some? && reselected.value.title == title && reselected.value.id == Some(newId)
    ensures reopened == ""
  {
    var app := new AppState();
    var ed := new Editor(app.selected, 0);
    app.AddNote();
    ed.Receive(app.selected);
    ed.EditTitle(title);
    var _, _ := app.DeleteNote(app.selected.value.id, true, true, None);
    ed.Receive(app.selected);
    var late := ed.Elapse(AutosaveDelay);
    var saved := late.value.(id := Some(newId));
    var _ := app.SaveNote(late.value, Some(saved));
    ed.FinishSave(true);
    ed.Receive(app.selected);
    reselected := app.selected;
    app.AddNote();
    ed.Receive(app.selected);
    reopened := ed.title;
  }

  /** Restoring a persisted note from the trash view, the server echoing the
      body back, drops every entry with its `_id` from the list and keeps the
      others in order, and the restored note is shown under the `all` view. */
  lemma RestoreLeavesTrash(prev: seq<Note>, n: Note)
    requires HasId(n)
    ensures var body := RestoreBody(n);
      && SaveRequest(body) == UpdateNote(n.id.value, body)
      && SavePatch(Trash, body, body, prev) == RemoveById(prev, n.id)
      && (forall m :: m in SavePatch(Trash, body, body, prev) <==> m in prev && m.id != n.id)
      && ShownIn(All, body) && !ShownIn(Trash, body)
  {
    MembershipAgreesWithFilter(Trash, RestoreBody(n));
  }

  /** A pending autosave survives the selection being cleared when the draft
      text is already empty: the load effect then changes none of the
      autosave effect's dependencies, so nothing cancels the timer, and the
      timer later sends the note that is no longer selected. */
  method ClearedSelectionStillAutosaves(n: Note)
    returns (pendingAfterClear: bool, late: Option<Note>)
    requires HasId(n) && n.title == "" && n.content == "" && n.tags == None
    ensures pendingAfterClear
    ensures late == Some(DraftNote(Some(n), "", "", ""))
  {
    var ed := new Editor(Some(n), 0);
    ed.EditTitle("");
    ed.Receive(None);
    pendingAfterClear := ed.timer.Some?;
    late := ed.Elapse(AutosaveDelay);
  }
}
