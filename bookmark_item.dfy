/**
 * One row of the list, components/BookmarkItem.tsx: the note draft kept
 * while editing, and the save, cancel, delete, seek and keyboard handlers.
 */
module BookmarkItem {
  import opened Types
  import opened BookmarkService
  import App
  import NotesPanel

  /** { ...bookmark, note: noteText }: the record with only its note replaced. */
  function Saved(b: Bookmark, text: string): (r: Bookmark)
    ensures r.note == text
    ensures r.id == b.id && r.videoId == b.videoId && r.timestamp == b.timestamp && r.createdAt == b.createdAt
  {
    b.(note := text)
  }

  /** Saving the note the record already has gives back the same record. */
  lemma SavedUnchanged(b: Bookmark)
    ensures Saved(b, b.note) == b
  {
  }

  /** What a keydown in the textarea does. */
  datatype EditorKey = SaveKey | CancelKey | OtherKey

  /** Enter without Shift saves, Escape cancels, every other key is typing. */
  function ClassifyKey(key: string, shiftKey: bool): (r: EditorKey)
    ensures r == SaveKey <==> key == "Enter" && !shiftKey
    ensures r == CancelKey <==> key == "Escape"
  {
    if key == "Enter" && !shiftKey then SaveKey
    else if key == "Escape" then CancelKey
    else OtherKey
  }

  /** Shift+Enter is typing: it inserts a new line in the note. */
  lemma ShiftEnterIsTyping()
    ensures ClassifyKey("Enter", true) == OtherKey
  {
  }

  /** The local state of one row: its record and the draft note text. */
  class ItemEditor {
    const bookmark: Bookmark
    var noteText: string

    /** useState(bookmark.note) */
    constructor (b: Bookmark)
      ensures bookmark == b && noteText == b.note
    {
      bookmark := b;
      noteText := b.note;
    }

    /** handleTextareaInput: the draft follows the textarea. */
    method HandleTextareaInput(value: string)
      modifies this`noteText
      ensures noteText == value
    {
      noteText := value;
    }

    /** The edit button: setIsEditing(bookmark.id). */
    method StartEditing(panel: NotesPanel.NotesPanel)
      modifies panel`isEditing
      ensures panel.isEditing == Some(bookmark.id)
    {
      panel.SetIsEditing(Some(bookmark.id));
    }

    /** handleSave: write the draft, close the editor, refresh the list. */
    method HandleSave(panel: NotesPanel.NotesPanel, app: App.AppState, ok: bool)
      modifies app.repo, app`bookmarks, panel`isEditing
      ensures app.repo.store == UpdateStep(old(app.repo.store), Saved(bookmark, noteText), ok)
      ensures panel.isEditing == None
      ensures app.InSync()
    {
      var _ := app.repo.UpdateBookmark(Saved(bookmark, noteText), ok);
      panel.SetIsEditing(None);
      app.RefreshBookmarks();
    }

    /** handleCancel: drop the draft and close the editor; nothing is written. */
    method HandleCancel(panel: NotesPanel.NotesPanel)
      modifies this`noteText, panel`isEditing
      ensures noteText == bookmark.note
      ensures panel.isEditing == None
    {
      noteText := bookmark.note;
      panel.SetIsEditing(None);
    }

    /** handleDelete: only after the confirmation dialog says yes. */
    method HandleDelete(confirmed: bool, app: App.AppState, ok: bool)
      modifies app.repo, app`bookmarks
      ensures confirmed ==> app.repo.store == DeleteStep(old(app.repo.store), bookmark.id, ok) && app.InSync()
      ensures !confirmed ==> app.repo.store == old(app.repo.store) && app.bookmarks == old(app.bookmarks)
    {
      if confirmed {
        app.repo.DeleteBookmark(bookmark.id, ok);
        app.RefreshBookmarks();
      }
    }

    /** The timestamp button: onSeek(bookmark.timestamp). */
    method ClickTimestamp(app: App.AppState)
      modifies app`currentTime
      ensures app.currentTime == bookmark.timestamp as real
    {
      app.HandleSeek(bookmark.timestamp as real);
    }

    /** The textarea's onKeyDown. */
    method HandleKeyDown(key: string, shiftKey: bool, panel: NotesPanel.NotesPanel, app: App.AppState, ok: bool)
      returns (preventDefault: bool)
      modifies this`noteText, app.repo, app`bookmarks, panel`isEditing
      ensures preventDefault <==> ClassifyKey(key, shiftKey) == SaveKey
      ensures ClassifyKey(key, shiftKey) == SaveKey ==>
                app.repo.store == UpdateStep(old(app.repo.store), Saved(bookmark, old(noteText)), ok)
                && noteText == old(noteText) && panel.isEditing == None && app.InSync()
      ensures ClassifyKey(key, shiftKey) == CancelKey ==>
                app.repo.store == old(app.repo.store) && app.bookmarks == old(app.bookmarks)
                && noteText == bookmark.note && panel.isEditing == None
      ensures ClassifyKey(key, shiftKey) == OtherKey ==>
                app.repo.store == old(app.repo.store) && app.bookmarks == old(app.bookmarks)
                && noteText == old(noteText) && panel.isEditing == old(panel.isEditing)
    {
      preventDefault := false;
      if key == "Enter" && !shiftKey {
        preventDefault := true;
        HandleSave(panel, app, ok);
      }
      if key == "Escape" {
        HandleCancel(panel);
      }
    }
  }
}
