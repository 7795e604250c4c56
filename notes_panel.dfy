/**
 * The decision logic of components/VidNotesPanel.tsx: the hh:mm:ss label,
 * the note search, the single-editor state and the add-bookmark action with
 * its keyboard shortcut.
 */
module NotesPanel {
  import opened Types
  import opened Seqs
  import Decimal
  import opened BookmarkService
  import App
  import Shortcuts

  // ---------------------------------------------------------------------------
  // hh:mm:ss (the same helper is repeated in components/BookmarkItem.tsx)

  lemma SplitHms(n: nat, hv: nat, mv: nat, sv: nat)
    requires hv == n / 3600 && mv == (n % 3600) / 60 && sv == n % 60
    ensures hv * 3600 + mv * 60 + sv == n
    ensures mv < 60 && sv < 60
    ensures n < 360000 ==> hv < 100
  {
    assert n % 3600 == mv * 60 + (n % 3600) % 60;
    assert (n % 3600) % 60 == n % 60;
    assert n == hv * 3600 + n % 3600;
  }

  /** One field: the decimal digits of v, left-padded with zeros to two places. */
  function Field(v: nat): (f: string)
    ensures |f| >= 2 && Decimal.AllDigits(f) && Decimal.Value(f) == v
    ensures v < 100 ==> |f| == 2
    ensures v >= 10 ==> Decimal.Canonical(f)
  {
    var digits := Decimal.NatToString(v);
    var f := Decimal.PadZero(digits, 2);
    assert v >= 10 ==> f == digits by {
      if v >= 10 {
        assert |digits| >= 2;
        assert f == f[0..] == digits;
      }
    }
    f
  }

  /**
   * r reads back as n seconds: hours, a colon, two-digit minutes, a colon and
   * two-digit seconds, with minutes and seconds below 60.
   */
  ghost predicate ReadsAsHms(r: string, n: nat)
  {
    |r| >= 8 && r[|r| - 6] == ':' && r[|r| - 3] == ':'
    && Decimal.AllDigits(r[..|r| - 6]) && Decimal.AllDigits(r[|r| - 5..|r| - 3]) && Decimal.AllDigits(r[|r| - 2..])
    && Decimal.Value(r[|r| - 5..|r| - 3]) < 60 && Decimal.Value(r[|r| - 2..]) < 60
    && Decimal.Value(r[..|r| - 6]) * 3600 + Decimal.Value(r[|r| - 5..|r| - 3]) * 60 + Decimal.Value(r[|r| - 2..]) == n
  }
  /** Joining the three fields with colons gives a string that reads back as n. */
  lemma HmsFields(r: string, h: string, m: string, s: string, n: nat)
    requires r == h + ":" + m + ":" + s
    requires |h| >= 2 && |m| == 2 && |s| == 2
    requires Decimal.AllDigits(h) && Decimal.AllDigits(m) && Decimal.AllDigits(s)
    requires Decimal.Value(m) < 60 && Decimal.Value(s) < 60
    requires Decimal.Value(h) * 3600 + Decimal.Value(m) * 60 + Decimal.Value(s) == n
    ensures ReadsAsHms(r, n)
  {
    assert r[..|r| - 6] == h && r[|r| - 5..|r| - 3] == m && r[|r| - 2..] == s;
  }
  /** The hours field is everything before the last six characters. */
  lemma HoursPrefix(r: string, h: string, m: string, s: string)
    requires r == h + ":" + m + ":" + s && |m| == 2 && |s| == 2
    ensures r[..|r| - 6] == h
  {
    assert r[..|h|] == h;
  }

  /** formatTime: hours, minutes and seconds, each padded to at least two digits. */
  function FormatTime(n: nat): (r: string)
    ensures ReadsAsHms(r, n)
    ensures |r[..|r| - 6]| >= 2
    ensures n < 360000 ==> |r| == 8
    ensures n / 3600 >= 10 ==> Decimal.Canonical(r[..|r| - 6])
  {
    var hv, mv, sv := n / 3600, (n % 3600) / 60, n % 60;
    SplitHms(n, hv, mv, sv);
    var h, m, s := Field(hv), Field(mv), Field(sv);
    var r := h + ":" + m + ":" + s;
    HmsFields(r, h, m, s, n);
    HoursPrefix(r, h, m, s);
    r
  }

  // ---------------------------------------------------------------------------
  // Search: note.toLowerCase().includes(searchTerm.toLowerCase())

  /** toLowerCase restricted to ASCII letters. */
  function LowerChar(c: char): char
  {
    if 'A' <= c <= 'Z' then (c as int - 'A' as int + 'a' as int) as char else c
  }

  /** toLowerCase: every upper-case ASCII letter becomes its lower-case letter; nothing else changes. */
  function Lower(s: string): (r: string)
    ensures |r| == |s|
    ensures forall i :: 0 <= i < |r| ==> !('A' <= r[i] <= 'Z')
    ensures forall i :: 0 <= i < |s| && 'A' <= s[i] <= 'Z' ==> r[i] as int == s[i] as int + 32
    ensures forall i :: 0 <= i < |s| && !('A' <= s[i] <= 'Z') ==> r[i] == s[i]
  {
    seq(|s|, i requires 0 <= i < |s| => LowerChar(s[i]))
  }

  /** Lowering an already lowered string changes nothing. */
  lemma LowerIdempotent(s: string)
    ensures Lower(Lower(s)) == Lower(s)
  {
    var l := Lower(s);
    assert forall i :: 0 <= i < |l| ==> Lower(l)[i] == l[i];
  }

  /** needle occurs in hay starting at position i. */
  ghost predicate OccursAt(hay: string, needle: string, i: int)
  {
    0 <= i && i + |needle| <= |hay| && hay[i..i + |needle|] == needle
  }

  /** String.prototype.includes: needle is a prefix of hay or of one of its suffixes. */
  function Includes(hay: string, needle: string): (r: bool)
    ensures needle <= hay ==> r
    ensures |needle| > |hay| ==> !r
    decreases |hay|
  {
    if needle <= hay then true
    else if hay == [] then false
    else Includes(hay[1..], needle)
  }

  /** Occurring at position 0 is being a prefix. */
  lemma OccursAtStart(hay: string, needle: string)
    ensures OccursAt(hay, needle, 0) <==> needle <= hay
  {
    if needle <= hay {
      assert hay[0..|needle|] == needle;
    }
    if OccursAt(hay, needle, 0) {
      assert forall k :: 0 <= k < |needle| ==> needle[k] == hay[0..|needle|][k];
    }
  }

  /** An occurrence in the tail is an occurrence one place later in the whole. */
  lemma OccursInTail(hay: string, needle: string, i: int)
    requires hay != [] && 0 <= i
    ensures OccursAt(hay[1..], needle, i) <==> OccursAt(hay, needle, i + 1)
  {
    if i + |needle| <= |hay| - 1 {
      var a, b := hay[1..][i..i + |needle|], hay[i + 1..i + 1 + |needle|];
      assert |a| == |b|;
      forall k | 0 <= k < |a| ensures a[k] == b[k] {
        assert a[k] == hay[i + 1 + k];
      }
      assert a == b;
    }
  }

  /** Includes agrees with the positional definition of a substring. */
  lemma {:induction false} IncludesIff(hay: string, needle: string)
    ensures Includes(hay, needle) <==> exists i :: OccursAt(hay, needle, i)
    decreases |hay|
  {
    if needle <= hay {
      assert hay[0..|needle|] == needle;
      assert OccursAt(hay, needle, 0);
    } else if hay == [] {
      assert forall i :: OccursAt(hay, needle, i) ==> needle == [];
    } else {
      IncludesIff(hay[1..], needle);
      if Includes(hay[1..], needle) {
        var i :| OccursAt(hay[1..], needle, i);
        OccursInTail(hay, needle, i);
      }
      if exists i :: OccursAt(hay, needle, i) {
        var i :| OccursAt(hay, needle, i);
        OccursAtStart(hay, needle);
        OccursInTail(hay, needle, i - 1);
      }
    }
  }

  /** The filter predicate of filteredBookmarks. */
  function MatchesSearch(b: Bookmark, searchTerm: string): (r: bool)
    ensures r <==> exists i :: OccursAt(Lower(b.note), Lower(searchTerm), i)
  {
    IncludesIff(Lower(b.note), Lower(searchTerm));
    Includes(Lower(b.note), Lower(searchTerm))
  }

  /** The filter callback of filteredBookmarks. */
  function Matcher(searchTerm: string): Bookmark -> bool
  {
    (b: Bookmark) => MatchesSearch(b, searchTerm)
  }

  /** filteredBookmarks: the matching bookmarks, in the order they were given. */
  function FilteredBookmarks(bookmarks: seq<Bookmark>, searchTerm: string): (r: seq<Bookmark>)
    ensures IsSubsequence(r, bookmarks)
    ensures forall b :: b in r <==> b in bookmarks && MatchesSearch(b, searchTerm)
    ensures forall b :: multiset(r)[b] == if MatchesSearch(b, searchTerm) then multiset(bookmarks)[b] else 0
    ensures searchTerm == "" ==> r == bookmarks
  {
    var keep := Matcher(searchTerm);
    FilterIsSubsequence(bookmarks, keep);
    if searchTerm == "" then
      assert forall i :: 0 <= i < |bookmarks| ==> keep(bookmarks[i]) by {
        forall i | 0 <= i < |bookmarks| ensures keep(bookmarks[i]) {
          assert Lower(searchTerm) == [];
        }
      }
      FilterKeepsAll(bookmarks, keep);
      Filter(bookmarks, keep)
    else
      Filter(bookmarks, keep)
  }

  /** The search ignores case: terms that lower to the same string show the same notes. */
  lemma SearchIgnoresCase(bookmarks: seq<Bookmark>, t1: string, t2: string)
    requires Lower(t1) == Lower(t2)
    ensures FilteredBookmarks(bookmarks, t1) == FilteredBookmarks(bookmarks, t2)
  {
    FilterSamePredicate(bookmarks, Matcher(t1), Matcher(t2));
  }

  /** In particular a term and its lowered form show the same notes. */
  lemma SearchByLoweredTerm(bookmarks: seq<Bookmark>, term: string)
    ensures FilteredBookmarks(bookmarks, term) == FilteredBookmarks(bookmarks, Lower(term))
  {
    LowerIdempotent(term);
    SearchIgnoresCase(bookmarks, term, Lower(term));
  }

  // ---------------------------------------------------------------------------
  // Editing: isEditing is one optional id

  /** The items rendered in edit mode: those whose id equals isEditing. */
  function EditingItems(shown: seq<Bookmark>, isEditing: Option<string>): (r: seq<Bookmark>)
    ensures forall b :: b in r <==> b in shown && isEditing == Some(b.id)
  {
    Filter(shown, IsEditingItem(isEditing))
  }

  /** The isEditing === bookmark.id test each item makes. */
  function IsEditingItem(isEditing: Option<string>): Bookmark -> bool
  {
    (b: Bookmark) => isEditing == Some(b.id)
  }

  /** With unique ids, at most one item is in edit mode. */
  lemma {:induction false} AtMostOneEditor(shown: seq<Bookmark>, isEditing: Option<string>)
    requires UniqueIds(shown)
    ensures |EditingItems(shown, isEditing)| <= 1
  {
    if shown != [] {
      var rest := shown[1..];
      assert UniqueIds(rest) by {
        forall i, j | 0 <= i < j < |rest| ensures rest[i].id != rest[j].id {
          assert rest[i] == shown[i + 1] && rest[j] == shown[j + 1];
        }
      }
      if isEditing == Some(shown[0].id) {
        forall k | 0 <= k < |rest| ensures !IsEditingItem(isEditing)(rest[k]) {
          assert shown[k + 1] == rest[k];
        }
        FilterKeepsNone(rest, IsEditingItem(isEditing));
      } else {
        AtMostOneEditor(rest, isEditing);
      }
    }
  }

  /** The id alone decides edit mode: two distinct shown records sharing an id are both in edit mode. */
  lemma DuplicateIdsBothEditing(shown: seq<Bookmark>, a: Bookmark, b: Bookmark)
    requires a in shown && b in shown && a != b && a.id == b.id
    ensures |EditingItems(shown, Some(a.id))| >= 2
  {
    var r := EditingItems(shown, Some(a.id));
    var i :| 0 <= i < |r| && r[i] == a;
    var j :| 0 <= j < |r| && r[j] == b;
    assert i != j;
  }

  /** The panel's own state: the search box, the open editor and the video id of the last render. */
  class NotesPanel {
    var searchTerm: string
    var isEditing: Option<string>
    var renderedVideoId: string

    constructor (videoId: string)
      ensures searchTerm == "" && isEditing == None && renderedVideoId == videoId
    {
      searchTerm := "";
      isEditing := None;
      renderedVideoId := videoId;
    }

    /** The search input's onChange. */
    method SetSearchTerm(term: string)
      modifies this`searchTerm
      ensures searchTerm == term
    {
      searchTerm := term;
    }

    /** setIsEditing, passed to every item. */
    method SetIsEditing(id: Option<string>)
      modifies this`isEditing
      ensures isEditing == id
    {
      isEditing := id;
    }

    /** The effect on [currentVideo.id]: any open editor closes when the video id changes. */
    method VideoIdEffect(videoId: string)
      modifies this`isEditing, this`renderedVideoId
      ensures videoId != old(renderedVideoId) ==> isEditing == None
      ensures videoId == old(renderedVideoId) ==> isEditing == old(isEditing)
      ensures renderedVideoId == videoId
    {
      if videoId != renderedVideoId {
        isEditing := None;
      }
      renderedVideoId := videoId;
    }
  }

  // ---------------------------------------------------------------------------
  // Adding a bookmark, by button or by key

  const NewBookmarkNote: string := "New bookmark..."

  /** The draft handleAddBookmark passes to addBookmark. */
  function AddDraft(videoId: string, currentTime: real): (d: Draft)
    ensures d.videoId == videoId && d.note == NewBookmarkNote
    ensures d.timestamp as real <= currentTime < d.timestamp as real + 1.0
  {
    Draft(videoId, currentTime.Floor, NewBookmarkNote)
  }

  /** handleAddBookmark: add at the floored current time, then refresh the list. */
  method HandleAddBookmark(app: App.AppState, c: ClockReading, ok: bool)
    modifies app`bookmarks, app.repo
    ensures app.repo.store == AddStep(old(app.repo.store), AddDraft(app.currentVideo.id, app.currentTime), c, ok)
    ensures app.InSync()
    ensures ok ==> NewRecord(AddDraft(app.currentVideo.id, app.currentTime), c) in app.bookmarks
  {
    var d := AddDraft(app.currentVideo.id, app.currentTime);
    var _ := app.repo.AddBookmark(d, c, ok);
    app.RefreshBookmarks();
  }

  datatype PanelAction = AddBookmarkAction

  /** The map given to useKeyboardShortcuts. */
  const PanelShortcuts: map<string, PanelAction> := map["p" := AddBookmarkAction, "P" := AddBookmarkAction]

  /** Both cases of the letter add a bookmark; typing it into a text field does not. */
  lemma PanelShortcutKeys(tag: string)
    ensures tag !in Shortcuts.TextEntryTags ==>
              Shortcuts.HandleKeyDown(tag, "p", PanelShortcuts) == Shortcuts.Reaction(true, Some(AddBookmarkAction))
              && Shortcuts.HandleKeyDown(tag, "P", PanelShortcuts) == Shortcuts.Reaction(true, Some(AddBookmarkAction))
    ensures Shortcuts.HandleKeyDown("TEXTAREA", "p", PanelShortcuts) == Shortcuts.Reaction(false, None)
  {
  }

  /** The panel's keydown listener: decide, then run the handler if there is one. */
  method HandleShortcutKey(targetTag: string, key: string, app: App.AppState, c: ClockReading, ok: bool)
    returns (preventDefault: bool)
    modifies app`bookmarks, app.repo
    ensures preventDefault == Shortcuts.HandleKeyDown(targetTag, key, PanelShortcuts).preventDefault
    ensures preventDefault ==>
              app.repo.store == AddStep(old(app.repo.store), AddDraft(app.currentVideo.id, app.currentTime), c, ok)
              && app.InSync()
    ensures !preventDefault ==> app.repo.store == old(app.repo.store) && app.bookmarks == old(app.bookmarks)
  {
    var reaction := Shortcuts.HandleKeyDown(targetTag, key, PanelShortcuts);
    preventDefault := reaction.preventDefault;
    if reaction.handler.Some? {
      HandleAddBookmark(app, c, ok);
    }
  }
}
