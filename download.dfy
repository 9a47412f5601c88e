/** The download orchestrator (main.py `download_video`, lines 374-485, and
    the per-video loop of `download_videos`, lines 543-549).

    The folder creation, the HTTP fetch, the browser download and the click
    script are I/O; what each of them would do is given as an input, and the
    model decides which of them are tried, in what order, with what
    arguments, and what is returned. */
module Download {
  import opened Wrappers
  import opened VideoList
  import opened FileNames

  /** One strategy tried for a video, with the arguments it is tried with. */
  datatype Attempt =
    | DirectFetch(url: string, dest: string)       // requests.get, written to dest
    | BrowserDownload(url: string, dest: string)   // page.goto under expect_download, saved to dest
    | ClickTrigger(cardIndex: nat)                 // re-open the listing, click the download link of the card at this position

  /** Whether each I/O step would succeed if it were reached. `clickDispatched`
      is true when the click script returns true without raising. */
  datatype Outcomes = Outcomes(folderCreated: bool, fetchSucceeds: bool, browserSucceeds: bool, clickDispatched: bool)

  /** The strategies' fixed order. */
  function Priority(a: Attempt): nat
  {
    match a
    case DirectFetch(_, _) => 0
    case BrowserDownload(_, _) => 1
    case ClickTrigger(_) => 2
  }

  predicate Succeeds(a: Attempt, o: Outcomes)
  {
    match a
    case DirectFetch(_, _) => o.fetchSucceeds
    case BrowserDownload(_, _) => o.browserSucceeds
    case ClickTrigger(_) => o.clickDispatched
  }

  /** `video_data.get('directUrl') or video_data.get('videoSrc')`, when truthy. */
  function DirectSource(v: VideoRecord): (u: Option<string>)
    ensures u.Some? <==> Truthy(v.directUrl) || Truthy(v.videoSrc)
    ensures u.Some? ==> u.value != "" && (if Truthy(v.directUrl) then u == v.directUrl else u == v.videoSrc)
  {
    if Truthy(v.directUrl) then v.directUrl else if Truthy(v.videoSrc) then v.videoSrc else None
  }

  /** `date_folder / filename`: a file directly inside the date folder
      (its name has no `/`), named after the title, ending in `.mp4`. */
  function TargetPath(folder: string, v: VideoRecord): (path: string)
    ensures |path| == |folder| + 1 + |FileName(v.title)|
    ensures path[..|folder|] == folder && path[|folder|] == '/'
    ensures forall i :: |folder| < i < |path| - |Extension| ==> IsWordChar(path[i])
    ensures path[|path| - |Extension|..] == Extension
  {
    folder + "/" + FileName(v.title)
  }

  /** The arguments each strategy is tried with. */
  predicate WellAimed(a: Attempt, v: VideoRecord, folder: string)
  {
    match a
    case DirectFetch(url, dest) => DirectSource(v) == Some(url) && dest == TargetPath(folder, v)
    case BrowserDownload(url, dest) => url == v.downloadUrl && dest == TargetPath(folder, v)
    case ClickTrigger(i) => i == v.index  // the position the video's card had when it was listed
  }

  predicate Tried(attempts: seq<Attempt>, priority: nat)
  {
    exists k :: 0 <= k < |attempts| && Priority(attempts[k]) == priority
  }

  /** When a video ends up downloaded, stated without the chain: its folder
      exists and some applicable strategy works. */
  predicate SomeStrategyWorks(v: VideoRecord, o: Outcomes)
  {
    o.folderCreated && ((DirectSource(v).Some? && o.fetchSucceeds) || o.browserSucceeds || o.clickDispatched)
  }

  /** `download_video`: tries the direct fetch (only when there is a direct
      URL), then the browser download, then the click trigger, and stops at
      the first that succeeds. A failure to create the folder ends the call
      before any strategy. */
  method DownloadVideo(v: VideoRecord, folder: string, o: Outcomes) returns (ok: bool, attempts: seq<Attempt>)
    ensures ok == SomeStrategyWorks(v, o)
    ensures ok <==> exists k :: 0 <= k < |attempts| && Succeeds(attempts[k], o)
    ensures forall k, l :: 0 <= k < l < |attempts| ==> Priority(attempts[k]) < Priority(attempts[l])
    ensures forall k :: 0 <= k < |attempts| - 1 ==> !Succeeds(attempts[k], o)
    ensures forall k :: 0 <= k < |attempts| ==> WellAimed(attempts[k], v, folder)
    ensures Tried(attempts, 0) <==> o.folderCreated && DirectSource(v).Some?
    ensures Tried(attempts, 1) <==> o.folderCreated && !(DirectSource(v).Some? && o.fetchSucceeds)
    ensures Tried(attempts, 2) <==> Tried(attempts, 1) && !o.browserSucceeds
  {
    attempts := [];
    if !o.folderCreated {
      return false, attempts;
    }
    var dest := TargetPath(folder, v);
    var videoUrl := DirectSource(v);
    if videoUrl.Some? {
      attempts := attempts + [DirectFetch(videoUrl.value, dest)];
      if o.fetchSucceeds {
        assert Succeeds(attempts[0], o);
        return true, attempts;
      }
    }
    attempts := attempts + [BrowserDownload(v.downloadUrl, dest)];
    if o.browserSucceeds {
      assert Succeeds(attempts[|attempts| - 1], o);
      return true, attempts;
    }
    attempts := attempts + [ClickTrigger(v.index)];
    assert Priority(attempts[|attempts| - 2]) == 1 && Priority(attempts[|attempts| - 1]) == 2;
    if videoUrl.Some? {
      assert Priority(attempts[0]) == 0;
    } else {
      assert forall k :: 0 <= k < |attempts| ==> Priority(attempts[k]) != 0;
    }
    ok := o.clickDispatched;
    if ok {
      assert Succeeds(attempts[|attempts| - 1], o);
    }
  }

  /** How many of the videos are downloaded, given each one's outcomes. */
  function CountSucceeded(videos: seq<VideoRecord>, outcomes: seq<Outcomes>): (n: nat)
    requires |outcomes| == |videos|
    ensures n <= |videos|
  {
    if videos == [] then 0
    else
      var last := |videos| - 1;
      CountSucceeded(videos[..last], outcomes[..last]) + (if SomeStrategyWorks(videos[last], outcomes[last]) then 1 else 0)
  }

  /** The download loop of `download_videos`: one `download_video` per
      listed video, in order, counting the successes. */
  method DownloadAll(videos: seq<VideoRecord>, folder: string, outcomes: seq<Outcomes>) returns (succeeded: nat)
    requires |outcomes| == |videos|
    ensures succeeded == CountSucceeded(videos, outcomes)
  {
    succeeded := 0;
    var i := 0;
    while i < |videos|
      invariant 0 <= i <= |videos|
      invariant succeeded == CountSucceeded(videos[..i], outcomes[..i])
    {
      var ok, _ := DownloadVideo(videos[i], folder, outcomes[i]);
      assert videos[..i + 1][..i] == videos[..i] && outcomes[..i + 1][..i] == outcomes[..i];
      if ok {
        succeeded := succeeded + 1;
      }
      i := i + 1;
    }
    assert videos[..|videos|] == videos && outcomes[..|outcomes|] == outcomes;
  }

  /** When every folder can be created and every direct fetch works, every
      video is downloaded. */
  lemma {:induction false} AllFetchesWork(videos: seq<VideoRecord>, outcomes: seq<Outcomes>)
    requires |outcomes| == |videos|
    requires forall k :: 0 <= k < |videos| ==> DirectSource(videos[k]).Some?
    requires forall k :: 0 <= k < |outcomes| ==> outcomes[k].folderCreated && outcomes[k].fetchSucceeds
    ensures CountSucceeded(videos, outcomes) == |videos|
  {
    if videos != [] {
      var last := |videos| - 1;
      AllFetchesWork(videos[..last], outcomes[..last]);
    }
  }

  /** Every video `get_video_links` returns has a direct URL candidate, so
      its download starts with the direct fetch of that URL. */
  lemma ListedVideosFetchDirectFirst(cards: seq<Card>, k: nat)
    requires k < |Filtered(Extracted(cards))|
    ensures DirectSource(Filtered(Extracted(cards))[k]).Some?
  {
    ListedVideosAreDownloadable(cards);
  }
}
