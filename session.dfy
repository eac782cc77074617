/** The state behind the search overlay of content-script.js: the loaded
    songs, the playlist they belong to, the load flags, the keyboard
    selection over the songs on screen, and the page address the SPA
    watcher compares against. */
module Session {
  import opened Wrappers
  import Text
  import opened Playlist

  const LoadingMessage: string := "Loading songs..."
  const NoSongsMessage: string := "No songs found"
  const NoPlaylistMessage: string := "Unable to get playlist information"
  const LoadFailedMessage: string := "Unable to get playlist songs"

  /** JavaScript truthiness of `current_playlist_id`: null and "" are falsy. */
  predicate HasPlaylist(id: Option<string>)
  {
    id.Some? && id.value != ""
  }

  // ---------------------------------------------------------------------
  // Keyboard selection arithmetic
  // ---------------------------------------------------------------------

  /** `(i + 1) % n` of `navigate_to_next_result`; with `i >= -1` the
      JavaScript remainder is never negative and agrees with Dafny's. */
  function NextIndex(i: int, n: int): (r: int)
    requires -1 <= i < n && n > 0
    ensures 0 <= r < n
    ensures i == n - 1 ==> r == 0
    ensures i < n - 1 ==> r == i + 1
  {
    (i + 1) % n
  }

  /** `navigate_to_previous_result`: from the top (or no selection) to the
      last result, otherwise one up. */
  function PrevIndex(i: int, n: int): (r: int)
    requires -1 <= i < n && n > 0
    ensures 0 <= r < n
    ensures i <= 0 ==> r == n - 1
    ensures i > 0 ==> r == i - 1
  {
    if i <= 0 then n - 1 else i - 1
  }

  /** Down then up, or up then down, comes back to the same result. */
  lemma NextPrevInverse(i: int, n: int)
    requires 0 <= i < n
    ensures PrevIndex(NextIndex(i, n), n) == i
    ensures NextIndex(PrevIndex(i, n), n) == i
  {
  }

  /** The index after `steps` presses of the down arrow. */
  function StepsDown(i: int, n: int, steps: nat): (r: int)
    requires -1 <= i < n && n > 0
    ensures -1 <= r < n
    decreases steps
  {
    if steps == 0 then i else NextIndex(StepsDown(i, n, steps - 1), n)
  }

  /** Pressing the down arrow walks the results one by one and wraps from
      the last to the first: from `i`, the `k`-th press lands on `i + k`
      until the end, and the press after the last result lands on the
      first. */
  lemma {:induction false} StepsDownWalks(i: int, n: int, steps: nat)
    requires -1 <= i < n && i + steps <= n && n > 0
    ensures StepsDown(i, n, steps) == if i + steps < n then i + steps else 0
    decreases steps
  {
    if steps > 0 {
      StepsDownWalks(i, n, steps - 1);
    }
  }

  // ---------------------------------------------------------------------
  // The session
  // ---------------------------------------------------------------------

  datatype LoadStart = NoPlaylist | AlreadyFetching | Started
  datatype LoadEnd = AuthRequired | Loaded | LoadFailed(error: FetchError)

  class SearchSession {
    var playlistSongs: seq<Song>
    var currentPlaylistId: Option<string>
    var isFetching: bool
    var isFirstFetch: bool
    var keyboardNavigationEnabled: bool
    var selectedResultIndex: int
    /** The songs on screen, as keyboard navigation sees them. */
    var filteredSongs: seq<Song>
    /** The address the SPA watcher last saw. */
    var currentUrl: string

    /** A selection, when there is one, is a song on screen, and there is
        one exactly while keyboard navigation is on. */
    ghost predicate Valid()
      reads this
    {
      -1 <= selectedResultIndex < |filteredSongs|
      && (keyboardNavigationEnabled <==> selectedResultIndex >= 0)
    }

    constructor (url: string)
      ensures Valid()
      ensures playlistSongs == [] && currentPlaylistId.None? && !isFetching && isFirstFetch
      ensures !keyboardNavigationEnabled && selectedResultIndex == -1 && filteredSongs == []
      ensures currentUrl == url
    {
      playlistSongs := [];
      currentPlaylistId := None;
      isFetching := false;
      isFirstFetch := true;
      keyboardNavigationEnabled := false;
      selectedResultIndex := -1;
      filteredSongs := [];
      currentUrl := url;
    }

    /** `extract_playlist_id`: the id from the page path, when it names one;
        otherwise the id stays as it was. */
    method ExtractPlaylistId(path: string)
      modifies this`currentPlaylistId
      ensures var found := PlaylistIdFromPath(path);
              currentPlaylistId == if found.Some? then found else old(currentPlaylistId)
    {
      var found := PlaylistIdFromPath(path);
      if found.Some? {
        currentPlaylistId := found;
      }
    }

    /** `reset_keyboard_navigation`. */
    method ResetKeyboardNavigation()
      modifies this`keyboardNavigationEnabled, this`selectedResultIndex
      ensures !keyboardNavigationEnabled && selectedResultIndex == -1
      ensures Valid()
    {
      keyboardNavigationEnabled := false;
      selectedResultIndex := -1;
    }

    /** `render_songs`: the songs shown become the ones navigation walks,
        with no selection; an empty list shows a placeholder that depends
        on whether the first load is still under way. */
    method RenderSongs(songs: seq<Song>) returns (emptyMessage: Option<string>)
      modifies this`filteredSongs, this`keyboardNavigationEnabled, this`selectedResultIndex
      ensures filteredSongs == songs && !keyboardNavigationEnabled && selectedResultIndex == -1
      ensures Valid()
      ensures emptyMessage.Some? <==> songs == []
      ensures emptyMessage.Some? ==> emptyMessage.value == if isFirstFetch then LoadingMessage else NoSongsMessage
    {
      filteredSongs := songs;
      if songs == [] {
        emptyMessage := Some(if isFirstFetch then LoadingMessage else NoSongsMessage);
      } else {
        emptyMessage := None;
      }
      ResetKeyboardNavigation();
    }

    /** `handle_search_input`: filter by the trimmed query, show the result
        and drop any selection. */
    method HandleSearchInput(query: string) returns (emptyMessage: Option<string>)
      modifies this`filteredSongs, this`keyboardNavigationEnabled, this`selectedResultIndex
      ensures filteredSongs == Filter(playlistSongs, Text.Trim(query))
      ensures !keyboardNavigationEnabled && selectedResultIndex == -1
      ensures Valid()
      ensures emptyMessage.Some? <==> filteredSongs == []
    {
      filteredSongs := Filter(playlistSongs, Text.Trim(query));
      emptyMessage := RenderSongs(filteredSongs);
      ResetKeyboardNavigation();
    }

    /** `navigate_to_next_result`. */
    method NavigateToNextResult()
      requires Valid()
      modifies this`keyboardNavigationEnabled, this`selectedResultIndex
      ensures Valid()
      ensures filteredSongs == [] ==>
                keyboardNavigationEnabled == old(keyboardNavigationEnabled)
                && selectedResultIndex == old(selectedResultIndex)
      ensures filteredSongs != [] ==>
                keyboardNavigationEnabled
                && selectedResultIndex == NextIndex(old(selectedResultIndex), |filteredSongs|)
    {
      if |filteredSongs| == 0 {
        return;
      }
      keyboardNavigationEnabled := true;
      selectedResultIndex := (selectedResultIndex + 1) % |filteredSongs|;
    }

    /** `navigate_to_previous_result`. */
    method NavigateToPreviousResult()
      requires Valid()
      modifies this`keyboardNavigationEnabled, this`selectedResultIndex
      ensures Valid()
      ensures filteredSongs == [] ==>
                keyboardNavigationEnabled == old(keyboardNavigationEnabled)
                && selectedResultIndex == old(selectedResultIndex)
      ensures filteredSongs != [] ==>
                keyboardNavigationEnabled
                && selectedResultIndex == PrevIndex(old(selectedResultIndex), |filteredSongs|)
    {
      if |filteredSongs| == 0 {
        return;
      }
      keyboardNavigationEnabled := true;
      selectedResultIndex :=
        if selectedResultIndex <= 0 then |filteredSongs| - 1 else selectedResultIndex - 1;
    }

    /** The Enter key: with focus in the search box or navigation on, the
        id of the selected song when the index points into the results. */
    function SelectedOnEnter(fromSearchInput: bool): (r: Option<string>)
      reads this
      ensures r.Some? ==> exists k :: 0 <= k < |filteredSongs| && r.value == filteredSongs[k].id
    {
      if (fromSearchInput || keyboardNavigationEnabled)
         && 0 <= selectedResultIndex < |filteredSongs|
      then Some(filteredSongs[selectedResultIndex].id)
      else None
    }

    /** The synchronous start of `load_playlist_songs`: without a playlist id
        the error state shows `NoPlaylistMessage`; while a load runs nothing
        happens; otherwise the load begins. */
    method BeginLoad() returns (start: LoadStart, errorShown: Option<string>)
      modifies this`isFetching
      ensures start == if !HasPlaylist(currentPlaylistId) then NoPlaylist
                       else if old(isFetching) then AlreadyFetching
                       else Started
      ensures isFetching == (old(isFetching) || start == Started)
      ensures errorShown == if start == NoPlaylist then Some(NoPlaylistMessage) else None
    {
      errorShown := None;
      if !HasPlaylist(currentPlaylistId) {
        return NoPlaylist, Some(NoPlaylistMessage);
      }
      if isFetching {
        return AlreadyFetching, None;
      }
      isFetching := true;
      start := Started;
    }

    /** The rest of `load_playlist_songs`, once the token request answered.
        The first load appends every page as it arrives and shows it; a
        later load replaces the songs when all pages arrived. `isFirstFetch`
        is cleared only by a complete first load; `isFetching` always. A
        failed fetch shows `LoadFailedMessage`. The search box holds `query`. */
    method FinishLoad(tokenGranted: bool, responses: seq<Response>, query: string)
      returns (outcome: LoadEnd, errorShown: Option<string>)
      requires Valid()
      requires EndsFrom(responses, 0)
      modifies this`playlistSongs, this`isFetching, this`isFirstFetch
      modifies this`filteredSongs, this`keyboardNavigationEnabled, this`selectedResultIndex
      ensures Valid() && !isFetching
      // the `catch` shows one message for every error the fetch throws
      ensures errorShown == if outcome.LoadFailed? then Some(LoadFailedMessage) else None
      ensures !tokenGranted ==>
                outcome == AuthRequired
                && playlistSongs == old(playlistSongs) && isFirstFetch == old(isFirstFetch)
                && filteredSongs == old(filteredSongs)
                && selectedResultIndex == old(selectedResultIndex)
      ensures tokenGranted ==>
                var f := FetchFrom(responses, 0);
                && outcome == (if f.result.Ok? then Loaded else LoadFailed(f.result.error))
                && isFirstFetch == (old(isFirstFetch) && f.result.Err?)
                && (old(isFirstFetch) ==> playlistSongs == old(playlistSongs) + SongsOfPages(f.delivered))
                && (!old(isFirstFetch) && f.result.Ok? ==> playlistSongs == SongsOfPages(f.delivered))
                && (!old(isFirstFetch) && f.result.Err? ==> playlistSongs == old(playlistSongs))
      ensures var shown := tokenGranted && (if old(isFirstFetch) then FetchFrom(responses, 0).delivered != []
                                             else FetchFrom(responses, 0).result.Ok?);
              && (shown ==> filteredSongs == Filter(playlistSongs, Text.Trim(query)) && selectedResultIndex == -1)
              && (!shown ==> filteredSongs == old(filteredSongs) && selectedResultIndex == old(selectedResultIndex))
    {
      if !tokenGranted {
        isFetching := false;
        return AuthRequired, None;
      }
      var result, delivered := FetchPlaylistTracks(responses);
      outcome := ApplyFetched(Fetched(result, delivered), query);
      errorShown := if outcome.LoadFailed? then Some(LoadFailedMessage) else None;
      // finally
      isFetching := false;
    }

    /** What `load_playlist_songs` does with the pages fetched. */
    method ApplyFetched(f: Fetched, query: string) returns (outcome: LoadEnd)
      requires Valid()
      requires f.result.Ok? ==> f.result.value == Flatten(f.delivered)
      modifies this`playlistSongs, this`isFirstFetch
      modifies this`filteredSongs, this`keyboardNavigationEnabled, this`selectedResultIndex
      ensures Valid()
      ensures outcome == (if f.result.Ok? then Loaded else LoadFailed(f.result.error))
      ensures isFirstFetch == (old(isFirstFetch) && f.result.Err?)
      ensures old(isFirstFetch) ==> playlistSongs == old(playlistSongs) + SongsOfPages(f.delivered)
      ensures !old(isFirstFetch) && f.result.Ok? ==> playlistSongs == SongsOfPages(f.delivered)
      ensures !old(isFirstFetch) && f.result.Err? ==> playlistSongs == old(playlistSongs)
      ensures var shown := if old(isFirstFetch) then f.delivered != [] else f.result.Ok?;
              && (shown ==> filteredSongs == Filter(playlistSongs, Text.Trim(query)) && selectedResultIndex == -1)
              && (!shown ==> filteredSongs == old(filteredSongs) && selectedResultIndex == old(selectedResultIndex))
    {
      if isFirstFetch {
        AppendPages(f.delivered, query);
        if f.result.Ok? {
          isFirstFetch := false;
        }
      } else if f.result.Ok? {
        SongsOfFlatten(f.delivered);
        playlistSongs := SongsOf(f.result.value);
        var shown := Filter(playlistSongs, Text.Trim(query));
        var _ := RenderSongs(shown);
      }
      outcome := if f.result.Ok? then Loaded else LoadFailed(f.result.error);
    }

    /** The page callback of the first load, once per page in order. */
    method AppendPages(pages: seq<seq<Item>>, query: string)
      requires Valid()
      modifies this`playlistSongs, this`filteredSongs, this`keyboardNavigationEnabled, this`selectedResultIndex
      ensures Valid()
      ensures playlistSongs == old(playlistSongs) + SongsOfPages(pages)
      ensures pages != [] ==> filteredSongs == Filter(playlistSongs, Text.Trim(query)) && selectedResultIndex == -1
      ensures pages == [] ==> filteredSongs == old(filteredSongs) && selectedResultIndex == old(selectedResultIndex)
                              && keyboardNavigationEnabled == old(keyboardNavigationEnabled)
    {
      var current := Text.Trim(query);
      var k := 0;
      while k < |pages|
        invariant 0 <= k <= |pages|
        invariant playlistSongs == old(playlistSongs) + SongsOfPages(pages[..k])
        invariant Valid()
        invariant k > 0 ==> filteredSongs == Filter(playlistSongs, current) && selectedResultIndex == -1
        invariant k == 0 ==> filteredSongs == old(filteredSongs) && selectedResultIndex == old(selectedResultIndex)
                             && keyboardNavigationEnabled == old(keyboardNavigationEnabled)
      {
        SongsOfPagesAppend(pages[..k], pages[k]);
        assert pages[..k + 1] == pages[..k] + [pages[k]];
        OnPageFetched(pages[k], current);
        k := k + 1;
      }
      assert pages[..|pages|] == pages;
    }

    /** `onPageFetched`: append the page's songs and show the whole list
        filtered by the search box's query `current`. */
    method OnPageFetched(page: seq<Item>, current: string)
      modifies this`playlistSongs, this`filteredSongs, this`keyboardNavigationEnabled, this`selectedResultIndex
      ensures Valid()
      ensures playlistSongs == old(playlistSongs) + SongsOf(page)
      ensures filteredSongs == Filter(playlistSongs, current) && selectedResultIndex == -1
    {
      playlistSongs := playlistSongs + SongsOf(page);
      var shown := Filter(playlistSongs, current);
      var _ := RenderSongs(shown);
    }

    /** The SPA watcher: on a new address, forget the playlist and its songs
        and the selection, and expect a first load again. A load under way
        keeps its `isFetching` flag. */
    method ResetOnNavigation(href: string) returns (changed: bool)
      modifies this`currentUrl, this`playlistSongs, this`currentPlaylistId, this`isFirstFetch
      modifies this`filteredSongs, this`keyboardNavigationEnabled, this`selectedResultIndex
      ensures changed <==> href != old(currentUrl)
      ensures currentUrl == href
      ensures changed ==>
                playlistSongs == [] && currentPlaylistId.None? && isFirstFetch && filteredSongs == []
                && !keyboardNavigationEnabled && selectedResultIndex == -1
      ensures !changed ==>
                playlistSongs == old(playlistSongs) && currentPlaylistId == old(currentPlaylistId)
                && isFirstFetch == old(isFirstFetch) && filteredSongs == old(filteredSongs)
                && keyboardNavigationEnabled == old(keyboardNavigationEnabled)
                && selectedResultIndex == old(selectedResultIndex)
      ensures changed ==> Valid()
    {
      changed := href != currentUrl;
      if changed {
        currentUrl := href;
        playlistSongs := [];
        currentPlaylistId := None;
        isFirstFetch := true;
        filteredSongs := [];
        keyboardNavigationEnabled := false;
        selectedResultIndex := -1;
      }
    }
  }

  /** Enter selects a song exactly while keyboard navigation is on (or the
      search box has focus and something is selected), and always a song on
      screen; right after a reset it selects nothing. */
  lemma EnterGuard(s: SearchSession, fromSearchInput: bool)
    requires s.Valid()
    ensures s.SelectedOnEnter(fromSearchInput).Some? <==> s.keyboardNavigationEnabled
    ensures s.SelectedOnEnter(fromSearchInput).Some? ==>
              s.SelectedOnEnter(fromSearchInput).value == s.filteredSongs[s.selectedResultIndex].id
  {
  }

  /** `scrollToLoadTrack`'s target: the offset of the song's row in the
      playlist, or none when the song is not in it. */
  function ScrollTargetFor(songs: seq<Song>, id: string): (r: Option<int>)
    ensures r.None? <==> forall k :: 0 <= k < |songs| ==> songs[k].id != id
    ensures r.Some? ==> RowOfTarget(r.value) == TrackIndex(songs, id) && songs[RowOfTarget(r.value)].id == id
  {
    var index := TrackIndex(songs, id);
    if index == -1 then None
    else
      ScrollTargetOrdered(index, index);
      Some(ScrollTarget(index))
  }
}
