/** The note editor (src/components/NoteEditor.jsx): the draft of the selected
    note (title, content and the tags as comma-separated text), its dirty and
    saving flags, and the single autosave timer. The timer runs on an abstract
    clock; the outcome of `onSave`, of the video upload and the speech results
    are parameters of the methods that receive them. */
module NoteEditor {
  import opened Notes
  import opened Text

  /** Milliseconds of quiet after the last change before the autosave fires. */
  const AutosaveDelay: nat := 2000

  const SavingLabel := "Saving..."
  const UnsavedLabel := "Unsaved"
  const SavedLabel := "Saved"
  const UploadAlertPrefix := "Failed to process video: "
  const UnknownError := "Unknown error"

  // ---------------------------------------------------------------------------
  // Tags: from the note's array to the edit field and back

  /** The tag field a loaded note starts with: its tags joined with ", ",
      or nothing when the note has no tags array. */
  function TagsText(tags: Option<seq<string>>): string {
    if tags.Some? then Join(tags.value, ", ") else ""
  }

  /** A tag that survives the trip through the edit field. */
  predicate WellFormedTag(t: string) {
    t != "" && ',' !in t && IsTrimmed(t)
  }

  lemma TrimKeepsOut(s: string, c: char)
    requires c !in s
    ensures c !in Trim(s)
  {
    var t := Trim(s);
    var a := LeadingWhitespace(s);
    forall i | 0 <= i < |t| ensures t[i] != c {
      assert t[i] == s[a + i];
    }
  }

  /** `.map(t => t.trim()).filter(t => t)` over the pieces of the tag field. */
  function KeepTrimmed(pieces: seq<string>): seq<string> {
    if pieces == [] then []
    else
      var t := Trim(pieces[0]);
      (if t != "" then [t] else []) + KeepTrimmed(pieces[1..])
  }

  /** What survives is at most as long, each entry non-empty and its own
      trim; and it holds no comma when no piece did. */
  lemma {:induction false} KeepTrimmedWellFormed(pieces: seq<string>)
    ensures |KeepTrimmed(pieces)| <= |pieces|
    ensures forall k :: 0 <= k < |KeepTrimmed(pieces)| ==>
      KeepTrimmed(pieces)[k] != "" && IsTrimmed(KeepTrimmed(pieces)[k])
    ensures (forall k :: 0 <= k < |pieces| ==> ',' !in pieces[k]) ==>
      forall k :: 0 <= k < |KeepTrimmed(pieces)| ==> ',' !in KeepTrimmed(pieces)[k]
  {
    if pieces != [] {
      var t := Trim(pieces[0]);
      var tail := pieces[1..];
      KeepTrimmedWellFormed(tail);
      if forall k :: 0 <= k < |pieces| ==> ',' !in pieces[k] {
        TrimKeepsOut(pieces[0], ',');
        assert forall k :: 0 <= k < |tail| ==> ',' !in tail[k] by {
          forall k | 0 <= k < |tail| ensures ',' !in tail[k] { assert tail[k] == pieces[k + 1]; }
        }
      }
    }
  }

  /** `tags.split(',').map(t => t.trim()).filter(t => t)`: the tags a save sends. */
  function ParseTags(text: string): seq<string> {
    KeepTrimmed(Split(text, ','))
  }

  /** Every tag a save sends is non-empty, holds no comma and is its own trim. */
  lemma ParsedTagsWellFormed(text: string)
    ensures forall k :: 0 <= k < |ParseTags(text)| ==>
      WellFormedTag(ParseTags(text)[k]) && Trim(ParseTags(text)[k]) == ParseTags(text)[k]
  {
    SplitPiecesLackSeparator(text, ',');
    KeepTrimmedWellFormed(Split(text, ','));
    var r := ParseTags(text);
    forall k | 0 <= k < |r| ensures WellFormedTag(r[k]) && Trim(r[k]) == r[k] { TrimOfTrimmed(r[k]); }
  }

  lemma {:induction false} KeepTrimmedAppend(a: seq<string>, b: seq<string>)
    ensures KeepTrimmed(a + b) == KeepTrimmed(a) + KeepTrimmed(b)
  {
    if a == [] {
      assert a + b == b;
    } else {
      var t := Trim(a[0]);
      var kept := if t != "" then [t] else [];
      assert (a + b)[0] == a[0] && (a + b)[1..] == a[1..] + b;
      KeepTrimmedAppend(a[1..], b);
      calc {
        KeepTrimmed(a + b);
        kept + KeepTrimmed(a[1..] + b);
        kept + (KeepTrimmed(a[1..]) + KeepTrimmed(b));
        (kept + KeepTrimmed(a[1..])) + KeepTrimmed(b);
      }
    }
  }

  /** The tags of the text before a comma come first, in order, then those after it. */
  lemma ParseTagsAround(a: string, b: string)
    ensures ParseTags(a + [','] + b) == ParseTags(a) + ParseTags(b)
  {
    SplitAround(a, ',', b);
    KeepTrimmedAppend(Split(a, ','), Split(b, ','));
  }

  /** Whitespace in front of the field changes no tag. */
  lemma ParseTagsAfterWhitespace(c: char, s: string)
    requires IsWhitespace(c)
    ensures ParseTags([c] + s) == ParseTags(s)
  {
    var ps := Split(s, ',');
    SplitAfterChar(c, s, ',');
    var qs := [[c] + ps[0]] + ps[1..];
    assert Split([c] + s, ',') == qs;
    TrimAfterWhitespace(c, ps[0]);
    assert qs[1..] == ps[1..];
    assert ps == [ps[0]] + ps[1..];
  }

  /** A field holding no comma and no blank around a non-empty text is one tag. */
  lemma ParseTagsSingle(t: string)
    requires WellFormedTag(t)
    ensures ParseTags(t) == [t]
  {
    SplitWithoutSeparator(t, ',');
    TrimOfTrimmed(t);
    assert KeepTrimmed([t]) == [t] + KeepTrimmed([t][1..]);
    assert [t][1..] == [];
  }

  /** An empty field sends no tag. */
  lemma ParseTagsEmpty()
    ensures ParseTags("") == []
  {
    assert Split("", ',') == [""];
    assert Trim("") == "";
    assert KeepTrimmed([""]) == [] + KeepTrimmed([""][1..]);
    assert [""][1..] == [];
  }

  lemma CommaBlank(a: string, rest: string)
    ensures a + ", " + rest == a + [','] + ([' '] + rest)
  {
    assert ", " == [','] + [' '];
  }

  lemma JoinCons(ts: seq<string>)
    requires |ts| >= 2
    ensures Join(ts, ", ") == ts[0] + [','] + ([' '] + Join(ts[1..], ", "))
  {
    CommaBlank(ts[0], Join(ts[1..], ", "));
  }

  /** Round trip: the tag field a note loads with parses back to the note's
      tags, as long as each tag is non-empty, comma-free and trimmed. */
  lemma {:induction false} ParseJoinedTags(ts: seq<string>)
    requires forall k :: 0 <= k < |ts| ==> WellFormedTag(ts[k])
    ensures ParseTags(Join(ts, ", ")) == ts
  {
    if |ts| == 0 {
      ParseTagsEmpty();
    } else if |ts| == 1 {
      ParseTagsSingle(ts[0]);
    } else {
      var tail := ts[1..];
      var rest := Join(tail, ", ");
      assert forall k :: 0 <= k < |tail| ==> WellFormedTag(tail[k]) by {
        forall k | 0 <= k < |tail| ensures WellFormedTag(tail[k]) { assert tail[k] == ts[k + 1]; }
      }
      JoinCons(ts);
      calc {
        ParseTags(Join(ts, ", "));
        { ParseTagsAround(ts[0], [' '] + rest); }
        ParseTags(ts[0]) + ParseTags([' '] + rest);
        { ParseTagsSingle(ts[0]); ParseTagsAfterWhitespace(' ', rest); }
        [ts[0]] + ParseTags(rest);
        { ParseJoinedTags(tail); }
        [ts[0]] + tail;
      }
      assert ts == [ts[0]] + tail;
    }
  }

  /** The note `handleSave` hands to `onSave`: the note spread, with the title,
      the content and the parsed tags of the draft over it. A missing note
      spreads to nothing. */
  function DraftNote(note: Option<Note>, title: string, content: string, tagsText: string): Note {
    var base := if note.Some? then note.value else Note(None, "", "", None, false, false, None);
    base.(title := title, content := content, tags := Some(ParseTags(tagsText)))
  }

  /** The note sent carries the draft's title, content and parsed tags, and
      every other field of the note as it was: its `_id` (so an update goes
      to the same note), its flags and its timestamp. With no note, it is a
      fresh note with no `_id` and both flags off. */
  lemma DraftOverridesOnlyText(note: Option<Note>, title: string, content: string, tagsText: string)
    ensures var r := DraftNote(note, title, content, tagsText);
      && r.title == title && r.content == content && r.tags == Some(ParseTags(tagsText))
      && (note.Some? ==>
            r.(title := note.value.title, content := note.value.content, tags := note.value.tags) == note.value)
      && (note.None? ==> r.id == None && !r.isFavorite && !r.isTrashed && r.createdAt == None)
  {
  }

  /** Saving a loaded note whose draft was not touched sends the note back as
      it was (a missing tags array comes back empty). */
  lemma UntouchedDraftIsNote(n: Note)
    requires n.tags.Some? ==> forall k :: 0 <= k < |n.tags.value| ==> WellFormedTag(n.tags.value[k])
    ensures DraftNote(Some(n), n.title, n.content, TagsText(n.tags)) ==
            n.(tags := Some(if n.tags.Some? then n.tags.value else []))
  {
    if n.tags.Some? {
      ParseJoinedTags(n.tags.value);
    } else {
      ParseTagsEmpty();
    }
  }

  // ---------------------------------------------------------------------------
  // Dictation

  /** One entry of `event.results`: whether it is final, and the transcript of
      its first alternative. */
  datatype SpeechResult = SpeechResult(isFinal: bool, transcript: string)

  /** What one result adds to the transcript. */
  function Piece(r: SpeechResult): string {
    if r.isFinal then r.transcript + " " else ""
  }

  /** The transcripts of the final results, each followed by a blank, in order. */
  function FinalText(results: seq<SpeechResult>): string {
    if results == [] then ""
    else FinalText(results[..|results| - 1]) + Piece(results[|results| - 1])
  }

  /** The results the loop of `onresult` visits: those from `resultIndex` on. */
  function Pending(results: seq<SpeechResult>, resultIndex: nat): (r: seq<SpeechResult>)
    ensures |r| == if resultIndex <= |results| then |results| - resultIndex else 0
    ensures forall k :: 0 <= k < |r| ==> r[k] == results[resultIndex + k]
  {
    if resultIndex <= |results| then results[resultIndex..] else []
  }

  /** The transcript is empty exactly when no result is final. */
  lemma {:induction false} FinalTextEmpty(results: seq<SpeechResult>)
    ensures FinalText(results) == "" <==> forall k :: 0 <= k < |results| ==> !results[k].isFinal
  {
    if results != [] {
      var init := results[..|results| - 1];
      FinalTextEmpty(init);
      assert forall k :: 0 <= k < |init| ==> init[k] == results[k];
    }
  }

  /** The results of two batches give the two transcripts one after the other. */
  lemma {:induction false} FinalTextAppend(a: seq<SpeechResult>, b: seq<SpeechResult>)
    ensures FinalText(a + b) == FinalText(a) + FinalText(b)
  {
    if b == [] {
      assert a + b == a;
    } else {
      var init := b[..|b| - 1];
      FinalTextAppend(a, init);
      assert (a + b)[..|a + b| - 1] == a + init;
      assert (a + b)[|a + b| - 1] == b[|b| - 1];
    }
  }

  /** One more result visited by the loop adds its piece. */
  lemma FinalTextStep(results: seq<SpeechResult>, lo: nat, i: nat)
    requires lo <= i < |results|
    ensures FinalText(results[lo..i + 1]) == FinalText(results[lo..i]) + Piece(results[i])
  {
    assert results[lo..i + 1][..i - lo] == results[lo..i];
  }

  /** The loop of `onresult`: concatenate, from `resultIndex` to the end, the
      transcript and a blank of each final result. */
  method AssembleTranscript(results: seq<SpeechResult>, resultIndex: nat) returns (transcript: string)
    ensures transcript == FinalText(Pending(results, resultIndex))
  {
    transcript := "";
    if resultIndex > |results| {
      return;
    }
    var i := resultIndex;
    while i < |results|
      invariant resultIndex <= i <= |results|
      invariant transcript == FinalText(results[resultIndex..i])
    {
      FinalTextStep(results, resultIndex, i);
      if results[i].isFinal {
        assert transcript + results[i].transcript + " " == transcript + Piece(results[i]);
        transcript := transcript + results[i].transcript + " ";
      } else {
        assert transcript + Piece(results[i]) == transcript;
      }
      i := i + 1;
    }
    assert results[resultIndex..i] == Pending(results, resultIndex);
  }

  // ---------------------------------------------------------------------------
  // Video summary upload

  /** What a failed upload exposes: `err.response.data.details`,
      `err.response.data.error` (absent when there is no response or no body)
      and `err.message`. */
  datatype UploadError = UploadError(details: Option<string>, error: Option<string>, message: Option<string>)

  /** The answer to the upload: the summary the server wrote, or the error. */
  datatype UploadOutcome = Summarized(summary: string) | UploadFailed(err: UploadError)

  /** The `||` chain that picks the text of the upload alert: the first of
      details, error and message that is a non-empty string, else a default. */
  function ErrorMessage(e: UploadError): (r: string)
    ensures r != ""
    ensures Truthy(e.details) ==> r == e.details.value
    ensures !Truthy(e.details) && Truthy(e.error) ==> r == e.error.value
    ensures !Truthy(e.details) && !Truthy(e.error) && Truthy(e.message) ==> r == e.message.value
    ensures !Truthy(e.details) && !Truthy(e.error) && !Truthy(e.message) ==> r == UnknownError
  {
    if Truthy(e.details) then e.details.value
    else if Truthy(e.error) then e.error.value
    else if Truthy(e.message) then e.message.value
    else UnknownError
  }

  /** The alert always names a reason after its prefix. */
  lemma AlertNamesReason(e: UploadError)
    ensures var alert := UploadAlertPrefix + ErrorMessage(e);
      |alert| > |UploadAlertPrefix| && alert[..|UploadAlertPrefix|] == UploadAlertPrefix
  {
  }

  // ---------------------------------------------------------------------------
  // Toolbar

  /** The text under the title: "Saving..." while saving, else "Unsaved" while
      dirty, else "Saved" for a persisted note, else nothing. */
  function StatusLabel(isSaving: bool, isDirty: bool, note: Note): (r: string)
    ensures r == SavingLabel <==> isSaving
    ensures r == UnsavedLabel <==> !isSaving && isDirty
    ensures r == SavedLabel <==> !isSaving && !isDirty && HasId(note)
    ensures r == "" <==> !isSaving && !isDirty && !HasId(note)
  {
    if isSaving then SavingLabel
    else if isDirty then UnsavedLabel
    else if HasId(note) then SavedLabel
    else ""
  }

  /** The manual save button is not disabled. */
  predicate SaveEnabled(isDirty: bool, isSaving: bool) {
    !(!isDirty || isSaving)
  }

  /** The button can be pressed exactly when the label reads "Unsaved". */
  lemma SaveEnabledWhenUnsaved(isSaving: bool, isDirty: bool, note: Note)
    ensures SaveEnabled(isDirty, isSaving) <==> StatusLabel(isSaving, isDirty, note) == UnsavedLabel
  {
  }

  /** What the Restore button of a trashed note hands to `onSave`: the note as
      loaded, out of the trash, with nothing else changed (not even the draft). */
  function RestoreBody(note: Note): (r: Note)
    ensures !r.isTrashed && r.(isTrashed := note.isTrashed) == note
  {
    note.(isTrashed := false)
  }

  // ---------------------------------------------------------------------------
  // The component's state

  /** `note?._id`, the key of the load effect: absent both for no note and for
      a note that was never saved. */
  function IdOf(note: Option<Note>): Option<string> {
    if note.Some? then note.value.id else None
  }

  /** The pending autosave in `saveTimeoutRef`: when it fires, and the note and
      draft its `handleSave` closure captured. */
  datatype Timer = Timer(deadline: nat, note: Note, title: string, content: string, tags: string)

  /** The state of one mounted editor. `note` is the prop; `now` is the
      abstract clock, in milliseconds; `lastChange` is the time of the last
      render that changed the autosave effect's dependencies. */
  class Editor {
    var note: Option<Note>
    var title: string
    var content: string
    var tags: string
    var isDirty: bool
    var isSaving: bool
    var isUploading: bool
    var now: nat
    var timer: Option<Timer>
    ghost var lastChange: nat

    /** A pending timer was armed by the effect run of the last dependency
        change, for a dirty draft equal to (t, c, g), and is still ahead. */
    ghost predicate TimerFor(t: string, c: string, g: string, d: bool)
      reads this
    {
      timer.Some? ==>
        && d
        && timer.value.deadline == lastChange + AutosaveDelay
        && now < timer.value.deadline
        && timer.value.title == t && timer.value.content == c && timer.value.tags == g
    }

    /** At most one autosave is pending; it belongs to a dirty draft, fires
        `AutosaveDelay` after the last change, and its closure sees the
        current draft. */
    ghost predicate Valid()
      reads this
    {
      lastChange <= now && TimerFor(title, content, tags, isDirty)
    }

    /** The timer the autosave effect arms in the current state, if any. */
    function Armed(): Option<Timer>
      reads this
    {
      if note.Some? && isDirty then Some(Timer(now + AutosaveDelay, note.value, title, content, tags)) else None
    }

    /** The autosave effect's dependencies are (t, c, g, d). */
    predicate DepsAre(t: string, c: string, g: string, d: bool)
      reads this
    {
      title == t && content == c && tags == g && isDirty == d
    }

    /** The mount: both effects run once; the draft is loaded from `n`. */
    constructor (n: Option<Note>, start: nat)
      ensures Valid()
      ensures note == n && now == start && timer == None
      ensures !isDirty && !isSaving && !isUploading
      ensures n.Some? ==> title == n.value.title && content == n.value.content && tags == TagsText(n.value.tags)
      ensures n.None? ==> title == "" && content == "" && tags == ""
    {
      note := n;
      isDirty, isSaving, isUploading := false, false, false;
      now, timer, lastChange := start, None, start;
      if n.Some? {
        title, content, tags := n.value.title, n.value.content, TagsText(n.value.tags);
      } else {
        title, content, tags := "", "", "";
      }
    }

    /** The autosave effect after a render whose previous dependencies were
        (t, c, g, d): when one changed, the cleanup clears the pending timer,
        then a timer is armed if a note is loaded and the draft is dirty. */
    method AutosaveEffect(t: string, c: string, g: string, d: bool)
      requires lastChange <= now && TimerFor(t, c, g, d)
      modifies this`timer, this`lastChange
      ensures Valid()
      ensures DepsAre(t, c, g, d) ==> timer == old(timer) && lastChange == old(lastChange)
      ensures !DepsAre(t, c, g, d) ==> timer == Armed() && lastChange == now
    {
      if !DepsAre(t, c, g, d) {
        timer := None;
        lastChange := now;
        if note.Some? && isDirty {
          timer := Some(Timer(now + AutosaveDelay, note.value, title, content, tags));
        }
      }
    }

    /** A new `note` prop. The load effect runs only when `note?._id` changed:
        a note resets the draft and both flags, no note empties the three
        fields and leaves the flags. */
    method Receive(n: Option<Note>)
      requires Valid()
      modifies this
      ensures Valid()
      ensures note == n && now == old(now) && isUploading == old(isUploading)
      ensures IdOf(n) == IdOf(old(note)) ==>
        && title == old(title) && content == old(content) && tags == old(tags)
        && isDirty == old(isDirty) && isSaving == old(isSaving) && timer == old(timer)
      ensures IdOf(n) != IdOf(old(note)) && n.Some? ==>
        && title == n.value.title && content == n.value.content && tags == TagsText(n.value.tags)
        && !isDirty && !isSaving && timer == None
      ensures IdOf(n) != IdOf(old(note)) && n.None? ==>
        && title == "" && content == "" && tags == ""
        && isDirty == old(isDirty) && isSaving == old(isSaving)
        && timer == if old(title) == "" && old(content) == "" && old(tags) == "" then old(timer) else None
    {
      var t, c, g, d := title, content, tags, isDirty;
      var previous := IdOf(note);
      note := n;
      if IdOf(n) != previous {
        if n.Some? {
          title, content, tags := n.value.title, n.value.content, TagsText(n.value.tags);
          isDirty, isSaving := false, false;
        } else {
          title, content, tags := "", "", "";
        }
      }
      AutosaveEffect(t, c, g, d);
    }

    /** `handleTitleChange`. Like every input and button of the editor, the
        title field is rendered only while a note is loaded; without one the
        component shows just its placeholder. */
    method EditTitle(v: string)
      requires Valid() && note.Some?
      modifies this
      ensures Valid()
      ensures title == v && isDirty
      ensures content == old(content) && tags == old(tags) && note == old(note)
      ensures isSaving == old(isSaving) && isUploading == old(isUploading) && now == old(now)
      ensures timer == if old(title) == v && old(isDirty) then old(timer) else Armed()
    {
      var t, c, g, d := title, content, tags, isDirty;
      title := v;
      isDirty := true;
      AutosaveEffect(t, c, g, d);
    }

    /** `handleContentChange` (the content field exists only with a note loaded). */
    method EditContent(v: string)
      requires Valid() && note.Some?
      modifies this
      ensures Valid()
      ensures content == v && isDirty
      ensures title == old(title) && tags == old(tags) && note == old(note)
      ensures isSaving == old(isSaving) && isUploading == old(isUploading) && now == old(now)
      ensures timer == if old(content) == v && old(isDirty) then old(timer) else Armed()
    {
      var t, c, g, d := title, content, tags, isDirty;
      content := v;
      isDirty := true;
      AutosaveEffect(t, c, g, d);
    }

    /** The `onChange` of the tag field (which exists only with a note loaded). */
    method EditTags(v: string)
      requires Valid() && note.Some?
      modifies this
      ensures Valid()
      ensures tags == v && isDirty
      ensures title == old(title) && content == old(content) && note == old(note)
      ensures isSaving == old(isSaving) && isUploading == old(isUploading) && now == old(now)
      ensures timer == if old(tags) == v && old(isDirty) then old(timer) else Armed()
    {
      var t, c, g, d := title, content, tags, isDirty;
      tags := v;
      isDirty := true;
      AutosaveEffect(t, c, g, d);
    }

    /** What `handleSave` does before it awaits `onSave`, for the closure of
        the render that saw the note `n`, the draft (t, c, g) and the dirty
        flag `d`: nothing on a clean draft; otherwise mark saving and send
        the draft over `n`. */
    method HandleSave(n: Option<Note>, t: string, c: string, g: string, d: bool) returns (sent: Option<Note>)
      modifies this`isSaving
      ensures !d ==> sent == None && isSaving == old(isSaving)
      ensures d ==> sent == Some(DraftNote(n, t, c, g)) && isSaving
    {
      if !d {
        return None;
      }
      isSaving := true;
      sent := Some(DraftNote(n, t, c, g));
    }

    /** A click on the save button, which is rendered only with a note loaded
        and is disabled unless the draft is dirty and no save is running. */
    method ClickSave() returns (sent: Option<Note>)
      requires Valid() && note.Some?
      modifies this
      ensures Valid()
      ensures SaveEnabled(old(isDirty), old(isSaving)) ==>
        sent == Some(DraftNote(note, title, content, tags)) && isSaving
      ensures !SaveEnabled(old(isDirty), old(isSaving)) ==> sent == None && isSaving == old(isSaving)
      ensures note == old(note) && title == old(title) && content == old(content) && tags == old(tags)
      ensures isDirty == old(isDirty) && isUploading == old(isUploading)
      ensures now == old(now) && timer == old(timer)
    {
      if !SaveEnabled(isDirty, isSaving) {
        return None;
      }
      var n, t, c, g := note, title, content, tags;
      sent := HandleSave(n, t, c, g, true);
      assert note == n && title == t && content == c && tags == g;
    }

    /** The rest of `handleSave` once `onSave` settled: a success marks the
        draft clean, and saving ends either way. */
    method FinishSave(ok: bool)
      requires Valid()
      modifies this
      ensures Valid()
      ensures !isSaving && isDirty == (old(isDirty) && !ok)
      ensures note == old(note) && title == old(title) && content == old(content) && tags == old(tags)
      ensures isUploading == old(isUploading) && now == old(now)
      ensures timer == if ok && old(isDirty) then None else old(timer)
    {
      var t, c, g, d := title, content, tags, isDirty;
      if ok {
        isDirty := false;
      }
      isSaving := false;
      AutosaveEffect(t, c, g, d);
    }

    /** The pending timer fires: the `handleSave` it captured runs, on the
        note and the draft of the render that armed it. */
    method Fire() returns (sent: Option<Note>)
      requires Valid() && timer.Some?
      modifies this`timer, this`isSaving
      ensures Valid() && timer == None && isSaving
      ensures sent == Some(DraftNote(Some(old(timer).value.note), old(timer).value.title, old(timer).value.content, old(timer).value.tags))
    {
      var fired := timer.value;
      timer := None;
      sent := HandleSave(Some(fired.note), fired.title, fired.content, fired.tags, true);
    }

    /** `d` milliseconds pass. If the pending timer's deadline falls within
        them, it fires. */
    method Elapse(d: nat) returns (sent: Option<Note>)
      requires Valid()
      modifies this`now, this`timer, this`isSaving
      ensures Valid()
      ensures now == old(now) + d
      ensures old(timer).None? || old(now) + d < old(timer).value.deadline ==>
        sent == None && timer == old(timer) && isSaving == old(isSaving)
      ensures old(timer).Some? && old(now) + d >= old(timer).value.deadline ==>
        var fired := old(timer).value;
        && sent == Some(DraftNote(Some(fired.note), fired.title, fired.content, fired.tags))
        && isSaving && timer == None
    {
      sent := None;
      if timer.Some? && now + d >= timer.value.deadline {
        sent := Fire();
      }
      now := now + d;
    }

    /** `recognition.onresult`: the transcript of the new final results is
        appended to the content, and marks the draft dirty, when it is not empty. */
    method OnSpeechResult(results: seq<SpeechResult>, resultIndex: nat)
      requires Valid()
      modifies this
      ensures Valid()
      ensures content == old(content) + FinalText(Pending(results, resultIndex))
      ensures isDirty == (old(isDirty) || exists k :: 0 <= k < |Pending(results, resultIndex)| && Pending(results, resultIndex)[k].isFinal)
      ensures note == old(note) && title == old(title) && tags == old(tags)
      ensures isSaving == old(isSaving) && isUploading == old(isUploading) && now == old(now)
      ensures timer == if FinalText(Pending(results, resultIndex)) == "" then old(timer) else Armed()
    {
      var t, c, g, d := title, content, tags, isDirty;
      var transcript := AssembleTranscript(results, resultIndex);
      FinalTextEmpty(Pending(results, resultIndex));
      if transcript != "" {
        content := content + transcript;
        isDirty := true;
      }
      AutosaveEffect(t, c, g, d);
    }

    /** The start of `handleVideoFile`. */
    method BeginUpload()
      modifies this`isUploading
      ensures isUploading
    {
      isUploading := true;
    }

    /** The end of `handleVideoFile`: a summary is appended to the content and
        marks the draft dirty; a failure yields the alert text and changes no
        field. Uploading ends either way. */
    method FinishUpload(outcome: UploadOutcome) returns (alert: Option<string>)
      requires Valid()
      modifies this
      ensures Valid()
      ensures !isUploading
      ensures outcome.Summarized? ==>
        && alert == None && content == old(content) + outcome.summary && isDirty
        && timer == if outcome.summary == "" && old(isDirty) then old(timer) else Armed()
      ensures outcome.UploadFailed? ==>
        && alert == Some(UploadAlertPrefix + ErrorMessage(outcome.err))
        && content == old(content) && isDirty == old(isDirty) && timer == old(timer)
      ensures note == old(note) && title == old(title) && tags == old(tags)
      ensures isSaving == old(isSaving) && now == old(now)
    {
      var t, c, g, d := title, content, tags, isDirty;
      alert := None;
      if outcome.Summarized? {
        content := content + outcome.summary;
        isDirty := true;
      } else {
        alert := Some(UploadAlertPrefix + ErrorMessage(outcome.err));
      }
      isUploading := false;
      AutosaveEffect(t, c, g, d);
      assert outcome.Summarized? ==> (content == c <==> outcome.summary == "");
    }
  }
}
