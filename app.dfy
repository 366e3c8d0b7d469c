/** The note collection reconciler of the top-level component (src/App.jsx):
    the in-memory list of notes, the active view, the selected note and the
    visible pane on a phone, and the handlers that patch them after each
    request. Requests are not performed: every handler returns the requests it
    issues and takes their outcomes as parameters. */
module App {
  import opened Notes
  import opened Text

  /** Which of the two panes a narrow screen shows. */
  datatype Pane = ListPane | EditorPane

  /** An HTTP request to the notes API; `path` is the text after the base URL's `/`. */
  datatype Request =
    | ListNotes                             // GET  base
    | ListTrash                             // GET  base/trash
    | CreateNote(body: Note)                // POST base
    | UpdateNote(path: string, body: Note)  // PUT  base/<path>
    | RemoveNote(path: string)              // DELETE base/<path>
    | SearchNotes(query: string)            // POST base/search

  const TrashPrompt := "Are you sure you want to delete this note permanently?"
  const MoveToTrashPrompt := "Are you sure you want to move this note to trash?"

  /** The save-time membership test: does the note belong to the view. */
  predicate InCurrentView(view: View, n: Note) {
    || (view == All && !n.isTrashed)
    || (view == Favorites && n.isFavorite && !n.isTrashed)
    || (view == Trash && n.isTrashed)
  }

  /** The render-time filter test of `filteredNotes`. */
  predicate ShownIn(view: View, n: Note) {
    if view == Favorites then n.isFavorite && !n.isTrashed
    else if view == Trash then n.isTrashed
    else !n.isTrashed
  }

  /** The two tests agree, and each view means what its name says. */
  lemma MembershipAgreesWithFilter(view: View, n: Note)
    ensures InCurrentView(view, n) == ShownIn(view, n)
    ensures view == All ==> (ShownIn(view, n) <==> !n.isTrashed)
    ensures view == Favorites ==> (ShownIn(view, n) <==> n.isFavorite && !n.isTrashed)
    ensures view == Trash ==> (ShownIn(view, n) <==> n.isTrashed)
  {
  }

  /** `filteredNotes`: the notes of the list that the view shows, in list order. */
  function FilterView(view: View, notes: seq<Note>): (r: seq<Note>)
    ensures |r| <= |notes|
    ensures forall n :: n in r <==> n in notes && ShownIn(view, n)
  {
    if notes == [] then []
    else
      assert notes == [notes[0]] + notes[1..];
      (if ShownIn(view, notes[0]) then [notes[0]] else []) + FilterView(view, notes[1..])
  }

  /** `notes.map(n => n._id === id ? replacement : n)`. */
  function ReplaceById(notes: seq<Note>, id: Option<string>, replacement: Note): (r: seq<Note>)
    ensures |r| == |notes|
    ensures forall i :: 0 <= i < |notes| ==> r[i] == if notes[i].id == id then replacement else notes[i]
  {
    if notes == [] then []
    else [if notes[0].id == id then replacement else notes[0]] + ReplaceById(notes[1..], id, replacement)
  }

  /** `notes.filter(n => n._id !== id)`. */
  function RemoveById(notes: seq<Note>, id: Option<string>): (r: seq<Note>)
    ensures |r| <= |notes|
  {
    if notes == [] then []
    else (if notes[0].id != id then [notes[0]] else []) + RemoveById(notes[1..], id)
  }

  /** Removal keeps exactly the entries with another `_id`, and leaves a list
      without that `_id` as it is. */
  lemma {:induction false} RemoveByIdKeeps(notes: seq<Note>, id: Option<string>)
    ensures forall n :: n in RemoveById(notes, id) <==> n in notes && n.id != id
    ensures (forall i :: 0 <= i < |notes| ==> notes[i].id != id) ==> RemoveById(notes, id) == notes
  {
    if notes != [] {
      var tail := notes[1..];
      RemoveByIdKeeps(tail, id);
      assert notes == [notes[0]] + tail;
    }
  }

  /** Removal keeps the order of what it keeps: it distributes over concatenation. */
  lemma {:induction false} RemoveByIdAppend(a: seq<Note>, b: seq<Note>, id: Option<string>)
    ensures RemoveById(a + b, id) == RemoveById(a, id) + RemoveById(b, id)
  {
    if a != [] {
      assert (a + b)[0] == a[0];
      assert (a + b)[1..] == a[1..] + b;
      RemoveByIdAppend(a[1..], b, id);
      var head := if a[0].id != id then [a[0]] else [];
      calc {
        RemoveById(a + b, id);
        head + RemoveById(a[1..] + b, id);
        head + (RemoveById(a[1..], id) + RemoveById(b, id));
        (head + RemoveById(a[1..], id)) + RemoveById(b, id);
      }
    } else {
      assert a + b == b;
    }
  }

  /** The display filter distributes over concatenation. */
  lemma {:induction false} FilterViewAppend(view: View, a: seq<Note>, b: seq<Note>)
    ensures FilterView(view, a + b) == FilterView(view, a) + FilterView(view, b)
  {
    if a != [] {
      assert (a + b)[0] == a[0];
      assert (a + b)[1..] == a[1..] + b;
      FilterViewAppend(view, a[1..], b);
      var head := if ShownIn(view, a[0]) then [a[0]] else [];
      calc {
        FilterView(view, a + b);
        head + FilterView(view, a[1..] + b);
        head + (FilterView(view, a[1..]) + FilterView(view, b));
        (head + FilterView(view, a[1..])) + FilterView(view, b);
      }
    } else {
      assert a + b == b;
    }
  }

  /** The list update `handleSaveNote` applies once the server returned `saved`
      for the request body `noteData`. */
  function SavePatch(view: View, noteData: Note, saved: Note, prev: seq<Note>): (r: seq<Note>)
    ensures HasId(noteData) && InCurrentView(view, saved) ==>
      |r| == |prev| &&
      forall i :: 0 <= i < |prev| ==> r[i] == if prev[i].id == saved.id then saved else prev[i]
    ensures HasId(noteData) && !InCurrentView(view, saved) ==>
      r == RemoveById(prev, saved.id) && forall n :: n in r <==> n in prev && n.id != saved.id
    ensures !HasId(noteData) && InCurrentView(view, saved) ==> r == [saved] + prev
    ensures !HasId(noteData) && !InCurrentView(view, saved) ==> r == prev
  {
    if HasId(noteData) then
      if !InCurrentView(view, saved) then RemoveByIdKeeps(prev, saved.id); RemoveById(prev, saved.id)
      else ReplaceById(prev, saved.id, saved)
    else if InCurrentView(view, saved) then [saved] + prev
    else prev
  }

  /** Once filtered for display, dropping the entries of a note that left the
      view looks the same as replacing them with it. */
  lemma {:induction false} RemoveRendersLikeReplace(view: View, prev: seq<Note>, saved: Note)
    requires !ShownIn(view, saved)
    ensures FilterView(view, RemoveById(prev, saved.id)) == FilterView(view, ReplaceById(prev, saved.id, saved))
  {
    if prev != [] {
      var x, rest := prev[0], prev[1..];
      assert prev == [x] + rest;
      RemoveRendersLikeReplace(view, rest, saved);
      var kept := if x.id != saved.id then [x] else [];
      var put := if x.id == saved.id then saved else x;
      assert RemoveById(prev, saved.id) == kept + RemoveById(rest, saved.id);
      assert ReplaceById(prev, saved.id, saved) == [put] + ReplaceById(rest, saved.id, saved);
      FilterViewAppend(view, kept, RemoveById(rest, saved.id));
      FilterViewAppend(view, [put], ReplaceById(rest, saved.id, saved));
      assert FilterView(view, kept) == FilterView(view, [put]) by {
        assert [put][1..] == [];
        if kept != [] { assert kept[1..] == []; }
      }
    }
  }

  /** What the view shows after a successful save is what it would show if the
      returned note had simply been written into the list: over every entry
      with its `_id` for an update, in front for a creation. So the save-time
      membership test and the render-time filter never disagree. */
  lemma SaveRendersAsApplied(view: View, noteData: Note, saved: Note, prev: seq<Note>)
    ensures HasId(noteData) ==>
      FilterView(view, SavePatch(view, noteData, saved, prev)) == FilterView(view, ReplaceById(prev, saved.id, saved))
    ensures !HasId(noteData) ==>
      FilterView(view, SavePatch(view, noteData, saved, prev)) == FilterView(view, [saved] + prev)
  {
    MembershipAgreesWithFilter(view, saved);
    if HasId(noteData) && !InCurrentView(view, saved) {
      RemoveRendersLikeReplace(view, prev, saved);
    }
    if !HasId(noteData) {
      assert ([saved] + prev)[1..] == prev;
    }
  }

  /** `{ ...note, isFavorite: !note.isFavorite }`. */
  function Flipped(note: Note): (r: Note)
    ensures r.isFavorite != note.isFavorite
    ensures r.(isFavorite := note.isFavorite) == note
  {
    note.(isFavorite := !note.isFavorite)
  }

  /** The optimistic list of `handleToggleFavorite`. */
  function ToggledList(notes: seq<Note>, note: Note): (r: seq<Note>)
    ensures |r| == |notes|
  {
    ReplaceById(notes, note.id, Flipped(note))
  }

  /** All entries with the toggled note's `_id` are that note (the editor shows
      the list's own copy). */
  predicate Consistent(notes: seq<Note>, note: Note) {
    forall i :: 0 <= i < |notes| && notes[i].id == note.id ==> notes[i] == note
  }

  /** The toggle flips `isFavorite` on the entries with the note's `_id` and
      changes nothing else. */
  lemma ToggleFlipsFavoriteOnly(notes: seq<Note>, note: Note)
    requires Consistent(notes, note)
    ensures |ToggledList(notes, note)| == |notes|
    ensures forall i :: 0 <= i < |notes| ==>
      ToggledList(notes, note)[i] ==
        if notes[i].id == note.id then notes[i].(isFavorite := !notes[i].isFavorite) else notes[i]
  {
  }

  /** Toggling the note and then its toggled copy restores the list. */
  lemma ToggleTwiceRestores(notes: seq<Note>, note: Note)
    requires Consistent(notes, note)
    ensures ToggledList(ToggledList(notes, note), Flipped(note)) == notes
  {
    var once := ToggledList(notes, note);
    var twice := ToggledList(once, Flipped(note));
    assert Flipped(Flipped(note)) == note;
    forall i | 0 <= i < |notes|
      ensures twice[i] == notes[i]
    {
      assert once[i].id == notes[i].id;
    }
  }

  /** Under the favourites view, unfavouriting a note hides every entry with its
      `_id` at once, before the request is answered. */
  lemma UnfavoritedLeavesFavorites(notes: seq<Note>, note: Note)
    requires note.isFavorite
    ensures forall n :: n in FilterView(Favorites, ToggledList(notes, note)) ==> n.id != note.id
  {
    var t := ToggledList(notes, note);
    forall n | n in FilterView(Favorites, t)
      ensures n.id != note.id
    {
      var i :| 0 <= i < |t| && t[i] == n;
      assert t[i] == if notes[i].id == note.id then Flipped(note) else notes[i];
    }
  }

  /** `!query.trim()`. */
  predicate IsBlank(query: string) {
    Trim(query) == ""
  }

  lemma BlankIsAllWhitespace(query: string)
    ensures IsBlank(query) <==> AllWhitespace(query)
  {
  }

  /** The request of `fetchNotes`: the trash endpoint exactly under the trash view. */
  function FetchRequest(view: View): (r: Request)
    ensures r == ListTrash <==> view == Trash
    ensures r.ListNotes? || r.ListTrash?
  {
    if view == Trash then ListTrash else ListNotes
  }

  /** The request of `handleSaveNote`: an update of `_id` or a creation. */
  function SaveRequest(noteData: Note): (r: Request)
    ensures r.UpdateNote? <==> HasId(noteData)
    ensures r.CreateNote? <==> !HasId(noteData)
    ensures r.body == noteData
    ensures r.UpdateNote? ==> Some(r.path) == noteData.id
  {
    if HasId(noteData) then UpdateNote(noteData.id.value, noteData) else CreateNote(noteData)
  }

  /** The text a template literal gives for `note._id`. */
  function IdPath(id: Option<string>): string {
    if id.Some? then id.value else "undefined"
  }

  /** The wording of the delete confirmation, chosen from the selected note. */
  function ConfirmPrompt(selected: Option<Note>): (r: string)
    ensures r == TrashPrompt <==> selected.Some? && selected.value.isTrashed
    ensures r == TrashPrompt || r == MoveToTrashPrompt
  {
    if selected.Some? && selected.value.isTrashed then TrashPrompt else MoveToTrashPrompt
  }

  /** A list fetched from the server replaces the local one; a failed fetch leaves it. */
  function Reloaded(prev: seq<Note>, fetched: Option<seq<Note>>): seq<Note> {
    if fetched.Some? then fetched.value else prev
  }

  /** The draft `handleAddNote` selects. */
  function NewDraft(): (r: Note)
    ensures !HasId(r) && r.title == "" && r.content == "" && r.tags == Some([])
    ensures !r.isFavorite && !r.isTrashed
  {
    Note(None, "", "", Some([]), false, false, None)
  }

  /** The state of the top-level component. */
  class AppState {
    var notes: seq<Note>
    var view: View
    var selected: Option<Note>
    var searchQuery: string
    var mobileView: Pane

    /** The first render: the initial state of every `useState`. The view
        effect then runs once on mount; a caller models it by `FetchNotes`. */
    constructor ()
      ensures notes == [] && view == All && selected == None && searchQuery == "" && mobileView == ListPane
    {
      notes := [];
      view := All;
      selected := None;
      searchQuery := "";
      mobileView := ListPane;
    }

    /** The notes the list shows. */
    function Shown(): seq<Note>
      reads this
    {
      FilterView(view, notes)
    }

    /** `fetchNotes`: reload the collection of the current view. */
    method FetchNotes(fetched: Option<seq<Note>>) returns (sent: seq<Request>)
      modifies this
      ensures sent == [FetchRequest(view)]
      ensures notes == Reloaded(old(notes), fetched)
      ensures view == old(view) && selected == old(selected)
      ensures searchQuery == old(searchQuery) && mobileView == old(mobileView)
    {
      sent := [FetchRequest(view)];
      notes := Reloaded(notes, fetched);
    }

    /** The sidebar's view choice; the view effect fetches only when the view changes. */
    method SelectView(v: View, fetched: Option<seq<Note>>) returns (sent: seq<Request>)
      modifies this
      ensures view == v
      ensures v == old(view) ==> sent == [] && notes == old(notes)
      ensures v != old(view) ==> sent == [FetchRequest(v)] && notes == Reloaded(old(notes), fetched)
      ensures selected == old(selected) && searchQuery == old(searchQuery) && mobileView == old(mobileView)
    {
      if v == view {
        sent := [];
      } else {
        view := v;
        sent := FetchNotes(fetched);
      }
    }

    /** `handleSaveNote(noteData)`, the server answering with `reply`
        (`None` when the request failed). */
    method SaveNote(noteData: Note, reply: Option<Note>) returns (sent: seq<Request>)
      modifies this
      ensures sent == [SaveRequest(noteData)]
      ensures reply.None? ==> notes == old(notes) && selected == old(selected)
      ensures reply.Some? ==>
        notes == SavePatch(view, noteData, reply.value, old(notes)) && selected == Some(reply.value)
      ensures view == old(view) && searchQuery == old(searchQuery) && mobileView == old(mobileView)
    {
      sent := [SaveRequest(noteData)];
      if reply.Some? {
        var saved := reply.value;
        notes := SavePatch(view, noteData, saved, notes);
        selected := Some(saved);
      }
    }

    /** `handleDeleteNote(id)`. `confirmed` is the user's answer to the prompt,
        `deleted` whether the DELETE succeeded, `resync` the answer to the reload
        a failure triggers. `prompt` is the confirmation text shown, if any. */
    method DeleteNote(id: Option<string>, confirmed: bool, deleted: bool, resync: Option<seq<Note>>)
      returns (prompt: Option<string>, sent: seq<Request>)
      modifies this
      ensures !Truthy(id) ==>
        prompt == None && sent == [] && notes == old(notes) &&
        selected == None && mobileView == ListPane
      ensures Truthy(id) ==> prompt == Some(ConfirmPrompt(old(selected)))
      ensures Truthy(id) && !confirmed ==>
        sent == [] && notes == old(notes) && selected == old(selected) && mobileView == old(mobileView)
      ensures Truthy(id) && confirmed && deleted ==>
        sent == [RemoveNote(id.value)] && notes == RemoveById(old(notes), id) &&
        selected == None && mobileView == ListPane
      ensures Truthy(id) && confirmed && !deleted ==>
        sent == [RemoveNote(id.value), FetchRequest(view)] && notes == Reloaded(old(notes), resync) &&
        selected == old(selected) && mobileView == old(mobileView)
      ensures view == old(view) && searchQuery == old(searchQuery)
    {
      if !Truthy(id) {
        selected := None;
        mobileView := ListPane;
        return None, [];
      }
      prompt := Some(ConfirmPrompt(selected));
      if !confirmed {
        return prompt, [];
      }
      sent := [RemoveNote(id.value)];
      if deleted {
        notes := RemoveById(notes, id);
        selected := None;
        mobileView := ListPane;
      } else {
        var reload := FetchNotes(resync);
        sent := sent + reload;
      }
    }

    /** `handleToggleFavorite(note)`: the optimistic patch, then the PUT
        (`putOk` its outcome) and on failure a reload answered by `resync`. */
    method ToggleFavorite(note: Note, putOk: bool, resync: Option<seq<Note>>) returns (sent: seq<Request>)
      modifies this
      ensures sent == [UpdateNote(IdPath(note.id), Flipped(note))] + (if putOk then [] else [FetchRequest(view)])
      ensures notes == if putOk then ToggledList(old(notes), note) else Reloaded(ToggledList(old(notes), note), resync)
      ensures selected == if old(selected).Some? && old(selected).value.id == note.id then Some(Flipped(note)) else old(selected)
      ensures view == old(view) && searchQuery == old(searchQuery) && mobileView == old(mobileView)
    {
      var updated := Flipped(note);
      notes := ToggledList(notes, note);
      if selected.Some? && selected.value.id == note.id {
        selected := Some(updated);
      }
      sent := [UpdateNote(IdPath(note.id), updated)];
      if !putOk {
        var reload := FetchNotes(resync);
        sent := sent + reload;
      }
    }

    /** `handleSearch(query)`: a blank query reloads the view, any other goes to
        the search endpoint; `reply` answers whichever request was sent. */
    method Search(query: string, reply: Option<seq<Note>>) returns (sent: seq<Request>)
      modifies this
      ensures searchQuery == query
      ensures sent == if IsBlank(query) then [FetchRequest(view)] else [SearchNotes(query)]
      ensures notes == Reloaded(old(notes), reply)
      ensures view == old(view) && selected == old(selected) && mobileView == old(mobileView)
    {
      searchQuery := query;
      if IsBlank(query) {
        sent := FetchNotes(reply);
        return;
      }
      sent := [SearchNotes(query)];
      notes := Reloaded(notes, reply);
    }

    /** `handleAddNote`: select a fresh draft and show the editor. */
    method AddNote()
      modifies this`selected, this`mobileView
      ensures selected == Some(NewDraft()) && mobileView == EditorPane
    {
      selected := Some(NewDraft());
      mobileView := EditorPane;
    }

    /** `handleSelectNote(note)`. */
    method SelectNote(note: Note)
      modifies this`selected, this`mobileView
      ensures selected == Some(note) && mobileView == EditorPane
    {
      selected := Some(note);
      mobileView := EditorPane;
    }

    /** `handleBackToList`. */
    method BackToList()
      modifies this`mobileView
      ensures mobileView == ListPane
    {
      mobileView := ListPane;
    }
  }
}
