/** The state App.tsx owns: theme, current video, playback time, play flag and the shown bookmarks. */
module App {
  import opened Types
  import opened BookmarkService

  datatype Theme = Light | Dark

  /** MOCK_VIDEOS */
  const MockVideos: seq<Video> := [
    Video("dQw4w9WgXcQ", "React Tutorial for Beginners", "https://picsum.photos/seed/react/1280/720", 7200),
    Video("yPYZpwSpKmA", "Advanced TypeScript Course", "https://picsum.photos/seed/typescript/1280/720", 5400)
  ]

  /** videos.find(v => v.id === id): the first video with that id, if any. */
  function FindVideo(videos: seq<Video>, id: string): (r: Option<Video>)
    ensures r.Some? ==> r.value in videos && r.value.id == id
    ensures r.Some? ==> exists k :: 0 <= k < |videos| && videos[k] == r.value
                          && forall j :: 0 <= j < k ==> videos[j].id != id
    ensures r.None? <==> forall k :: 0 <= k < |videos| ==> videos[k].id != id
  {
    if videos == [] then None
    else if videos[0].id == id then Some(videos[0])
    else FindVideo(videos[1..], id)
  }

  /** The toggleTheme updater: prevTheme === 'light' ? 'dark' : 'light'. */
  function Toggled(t: Theme): (r: Theme)
    ensures r != t
  {
    if t == Light then Dark else Light
  }

  /** Toggling the theme twice restores it. */
  lemma ToggledTwice(t: Theme)
    ensures Toggled(Toggled(t)) == t
  {
  }

  class AppState {
    var theme: Theme
    var currentVideo: Video
    var currentTime: real
    var isPlaying: bool
    var bookmarks: seq<Bookmark>
    const repo: BookmarkStore

    /** The list on screen is what the repository answers now for the current video. */
    ghost predicate InSync()
      reads this, repo
    {
      bookmarks == BookmarksForVideo(repo.All(), currentVideo.id)
    }

    /** The initial state: a saved theme or dark, the first mock video, time 0, paused, no bookmarks yet. */
    constructor (repo: BookmarkStore, savedTheme: Option<Theme>)
      ensures this.repo == repo
      ensures theme == (if savedTheme.Some? then savedTheme.value else Dark)
      ensures currentVideo == MockVideos[0] && currentTime == 0.0 && !isPlaying && bookmarks == []
    {
      this.repo := repo;
      theme := if savedTheme.Some? then savedTheme.value else Dark;
      currentVideo := MockVideos[0];
      currentTime := 0.0;
      isPlaying := false;
      bookmarks := [];
    }

    /** The mount effects that reach the repository, in their order: initializeDemoData, then refreshBookmarks. */
    method Mount(cs: seq<ClockReading>, oks: seq<bool>)
      requires |cs| == |DemoDrafts| && |oks| == |DemoDrafts|
      modifies this`bookmarks, repo
      ensures repo.store == Bootstrap(old(repo.store), cs, oks)
      ensures InSync()
    {
      repo.InitializeDemoData(cs, oks);
      RefreshBookmarks();
    }

    /** refreshBookmarks */
    method RefreshBookmarks()
      modifies this`bookmarks
      ensures InSync()
    {
      bookmarks := repo.GetBookmarksForVideo(currentVideo.id);
    }

    /** toggleTheme */
    method ToggleTheme()
      modifies this`theme
      ensures theme == Toggled(old(theme))
    {
      theme := if theme == Light then Dark else Light;
    }

    /**
     * handleVideoChange, followed by the effect that re-runs refreshBookmarks
     * when currentVideo changes. Selecting the current video again leaves the
     * state equal, so that effect does not run.
     */
    method HandleVideoChange(videoId: string)
      modifies this`currentVideo, this`currentTime, this`isPlaying, this`bookmarks
      ensures FindVideo(MockVideos, videoId).None? ==>
                currentVideo == old(currentVideo) && currentTime == old(currentTime)
                && isPlaying == old(isPlaying) && bookmarks == old(bookmarks)
      ensures FindVideo(MockVideos, videoId).Some? ==>
                currentVideo == FindVideo(MockVideos, videoId).value && currentTime == 0.0 && !isPlaying
      ensures currentVideo != old(currentVideo) ==> InSync()
      ensures currentVideo == old(currentVideo) ==> bookmarks == old(bookmarks)
      ensures old(InSync()) ==> InSync()
    {
      var video := FindVideo(MockVideos, videoId);
      if video.Some? {
        var previous := currentVideo;
        currentVideo := video.value;
        currentTime := 0.0;
        isPlaying := false;
        if currentVideo != previous {
          RefreshBookmarks();
        }
      }
    }

    /** handleSeek: the time is taken as given, with no range check. */
    method HandleSeek(time: real)
      modifies this`currentTime
      ensures currentTime == time
    {
      currentTime := time;
    }
  }
}
