# Spotify playlist search: a Dafny model of its token lifecycle and search session

The browser extension adds a search overlay to Spotify playlist pages. Two parts of it are
sequential logic, and they are modelled here.

1. **The background service worker** (`background.js`) runs the OAuth 2.0 authorization-code flow
   with PKCE. It does the following:
   - draws the code verifier and the anti-forgery `state` from the unreserved alphabet of
     section 4.1 of RFC 7636;
   - derives the S256 code challenge: base64url without padding, section 5 of RFC 4648, of the
     SHA-256 digest;
   - stores the secrets while the authorization window is open;
   - checks the redirect's `code` and `state`;
   - exchanges the code for tokens;
   - refreshes the access token when it is within five minutes of expiry;
   - clears the tokens when a refresh fails.

   `chrome.storage.local` is a `map<Key, Value>` field of the class `Background.ServiceWorker`.
   The worker also keeps two logs: the authorization URLs it launched and the token-endpoint
   requests it sent.

   Several inputs are passed in as parameters:
   - the random bytes;
   - the SHA-256 function;
   - the outcome of the authorization window;
   - the token endpoint's reply;
   - the clock.

   Each flow is also written as a pure function of these inputs: `OAuthFlowOutcome`,
   `ExchangeOutcome`, `RefreshOutcome` and `ValidTokenOutcome`. Each method's postcondition ties
   the new state to its function, and the lemmas state the security properties about the
   functions.

2. **The search session** (`content-script.js`) holds the module-level state of the overlay:
   - the loaded songs;
   - the playlist id;
   - the load flags `isFetching` and `isFirstFetch`;
   - the keyboard selection;
   - the songs on screen;
   - the page address.

   These are fields of the class `Session.SearchSession`, whose methods update them as the
   script's handlers do.

   The pure helpers are in module `Playlist`: the multi-term filter, HTML escaping, the
   album-image choice, the playlist id lookup and the scroll arithmetic. `Playlist` also holds
   the paginated track fetch. Its method `FetchPlaylistTracks` is a `while` loop over the
   sequence of replies the API would give.

The JavaScript string primitives the code relies on are in module `Text`: `trim`,
`toLowerCase`, `split`, `join`, `includes`, and `replace` with a global one-character pattern.
`Option` and `Result` are in module `Wrappers`.

## Model

| member | source | states |
|---|---|---|
| Pkce.PossibleIsUnreservedAlphabet | background.js:14-15 | the alphabet has 66 characters and holds exactly the unreserved characters of RFC 3986 |
| Pkce.AppendChars | background.js:17 | the `reduce` appends one character per byte, namely `possible[x % 66]`, after the accumulator |
| Pkce.GenerateRandomString | background.js:13-18 | the string has one character per random byte; character i is `possible[bytes[i] % 66]`; every character is unreserved |
| Pkce.VerifierIsValid | background.js:43 | a 128-byte draw gives a verifier that section 4.1 of RFC 7636 accepts (43 to 128 unreserved characters) |
| Pkce.Utf8Encode | background.js:21-22 | `TextEncoder` output: an ASCII string encodes to its own character codes, one byte each |
| Pkce.Sextets | background.js:24 | the digest is cut into `ceil(4n/3)` groups of 6 bits, each below 64 |
| Pkce.UrlDigits | background.js:24-28 | the base64url digits have one character per sextet, with no `+`, `/` or `=` |
| Pkce.Base64UrlEncode | background.js:24-28 | the unpadded base64url text has length `ceil(4n/3)` and no `+`, `/` or `=` |
| Pkce.BytesOfSextetsInverse | background.js:24 | regrouping the sextets gives back every byte of the digest |
| Pkce.UrlValuesOfDigits | background.js:24-28 | reading the base64url digits back gives the sextets |
| Pkce.Base64UrlRoundTrip | background.js:24-28 | base64url decoding undoes the encoding, so the challenge loses none of the digest |
| Pkce.UrlSafeAppend | background.js:25-28 | the three replacements act on a concatenation part by part |
| Pkce.UrlSafeStdDigits | background.js:25-27 | replacing `+` by `-` and `/` by `_` turns standard base64 digits into base64url digits |
| Pkce.UrlSafePadding | background.js:28 | removing every `=` deletes the padding |
| Pkce.CodeChallengeIsBase64Url | background.js:24-28 | `btoa` followed by the three `replace` calls is exactly unpadded base64url of the digest |
| Pkce.CodeChallengeOfDigest | background.js:24-28 | `btoa` of the digest followed by the three `replace` calls; `CodeChallengeIsBase64Url` proves it is unpadded base64url of the digest |
| Pkce.CreateCodeChallenge | background.js:20-29 | the challenge is the base64url encoding of SHA-256 of the verifier's UTF-8 bytes; it has no `+`, `/` or `=`; it decodes back to the digest |
| Pkce.ChallengeLength | background.js:20-29 | a 32-byte digest gives the 43-character challenge of section 4.2 of RFC 7636 |
| Text.TrimStartIsSuffix | background.js:38 | `trimStart` keeps a suffix after a blank prefix, and that suffix does not start with whitespace |
| Text.TrimEndIsPrefix | background.js:38 | `trimEnd` keeps a prefix before a blank suffix, and that prefix does not end with whitespace |
| Text.TrimIsSlice | content-script.js:422 | `trim` keeps a contiguous slice; only whitespace is cut off on either side; the slice neither starts nor ends with whitespace |
| Text.TrimEmptyIffBlank | background.js:38 | `s.trim() === ""` exactly when `s` is all whitespace |
| Text.LowerFixedIffNoUpper | content-script.js:499 | the lowercased text has no upper-case letter, and a string is its own lowercase form exactly when it has none |
| Text.LowerIdempotent | content-script.js:499 | lowercasing a second time changes nothing |
| Text.Split | content-script.js:500 | `split` yields at least one piece, and no piece contains the separator |
| Text.JoinSplit | content-script.js:500-510 | joining the pieces of a split with the same separator gives back the string |
| Text.ReplaceCharRemoves | content-script.js:1115-1120 | a global replacement removes its character when the replacement text does not contain it |
| Text.ReplaceCharKeepsAbsent | content-script.js:1115-1120 | a replacement introduces no character that is in neither the input nor the replacement text |
| Text.ReplaceCharAppend | background.js:25-28 | a global replacement acts on a concatenation part by part |
| Text.ReplaceCharAbsent | content-script.js:1115-1120 | a string without the character is left unchanged |
| Background.ValidClientIdIffNotBlank | background.js:38-40 | the client id is accepted exactly when it is present and contains a character other than whitespace |
| Background.ValidClientId | background.js:37-39 | a missing id, or one whose `trim()` is empty, is rejected; `ValidClientIdIffNotBlank` proves it is accepted exactly when present and not all whitespace |
| Background.QueryGet | background.js:77-79 | `URLSearchParams.get`: a value exactly when some pair has the key, and then the value of a pair with that key |
| Background.RedirectCheck | background.js:77-87 | passes exactly when `code` is non-empty and `state` equals the generated state; a missing code is reported first; otherwise the state mismatch error |
| Background.StoreTokens | background.js:140-147 | the access token and `expires_at = now + expires_in*1000` are set; the refresh token is set when the reply has one and otherwise keeps its earlier value, since `chrome.storage` drops an undefined value; no other key changes |
| Background.ExchangeOutcome | background.js:132-147 | success exactly on an OK reply, storing the access token, the expiry and the refresh token when one came back, and leaving every other key, an earlier refresh token included, as it was; otherwise the error is `error_description` or "Token exchange failed" and nothing is stored |
| Background.ExchangeIgnoresSecrets | background.js:105-108 | storing the PKCE secrets before the exchange makes no difference once the `finally` has removed them |
| Background.OAuthFlowOutcome | background.js:32-109 | the secrets never outlive the call; every failure leaves storage as it was less the secrets; a bad client id fails with "Invalid client ID provided" before any launch; a rejected launch, a failed redirect check and a failed exchange each fail with the message of the error thrown; the code is exchanged only after both redirect checks; success exactly when every step succeeds |
| Background.GenerateSecrets | background.js:42-44 | the verifier from 128 random characters, its S256 challenge, and the state from 16; `FlowBindsVerifierToChallenge` proves the launched challenge is that of the exchanged verifier |
| Background.FlowBindsVerifierToChallenge | background.js:42-94 | an exchange uses the verifier whose S256 challenge was launched, the same client id, and the code of a redirect whose state matched; the verifier is valid per RFC 7636 |
| Background.StateMismatchNeverExchanges | background.js:85-87 | a returned state that differs from the generated one fails with "State parameter mismatch", without an exchange, whatever the token endpoint would say |
| Background.ExchangeStoresTokensOnly | background.js:140-147 | after a granted exchange and the removal of the secrets, exactly the written token keys are added or changed, with the reply's values, and no other key is changed |
| Background.FlowSuccessStoresTokens | background.js:89-108 | a successful flow stores the access token, the computed expiry and the returned refresh token, and changes nothing else |
| Background.ExchangeKeepsRefreshToken | background.js:143-147 | an exchange whose reply has no `refresh_token` keeps the stored one, and the next refresh sends the refresh token that is then in storage |
| Background.RefreshOutcome | background.js:150-206 | a request is sent exactly when both credentials are truthy; every failure removes exactly the three token keys; success writes the access token and expiry and replaces the refresh token only when a non-empty one came back |
| Background.ExchangeError | background.js:132-135 | the message a failed exchange throws: `error_description` when non-empty, else "Token exchange failed"; a network error keeps its message. `ExchangeOutcome` and `OAuthFlowOutcome` state that the flow reports it |
| Background.RefreshError | background.js:176-205 | "Token refresh failed" for a non-OK reply and the network error's own message otherwise, rethrown by the `catch`; `RefreshOutcome` states that either clears the token keys |
| Background.ValidTokenOutcome | background.js:208-228 | no access token: an error and no change; a token outside the 5-minute buffer is returned as stored; inside the buffer the answer is the refresh's |
| Background.NeedsRefresh | background.js:218-222 | `expires_at && Date.now() >= expires_at - buffer_time`; `ValidTokenOutcome`, `ReturnedTokenIsFresh` and `ExchangedTokenLifetime` state what follows from it |
| Background.ReturnedTokenIsFresh | background.js:218-227 | a token returned without a refresh is the stored one and has more than five minutes left, or has no expiry recorded |
| Background.ExchangedTokenLifetime | background.js:218-227 | after an exchange, the token is served as stored until five minutes before `now + expires_in*1000`, and refreshed from then on |
| Background.ServiceWorker.constructor | background.js:3-10 | the worker starts over the persisted storage, with empty request logs |
| Background.ServiceWorker.ExchangeCodeForToken | background.js:111-148 | one authorization-code POST is logged; storage becomes `ExchangeOutcome` on success and is unchanged on failure, when the message is returned |
| Background.ServiceWorker.InitiateOAuthFlow | background.js:32-109 | the reply, the new storage and the launched URL and token request logs are those of `OAuthFlowOutcome` for the generated secrets |
| Background.ServiceWorker.Authorize | background.js:42-94 | the body of the `try` after the client-id check agrees with `OAuthFlowOutcome`, up to the PKCE keys the `finally` removes |
| Background.ServiceWorker.RefreshAccessToken | background.js:150-206 | result, storage and request log follow `RefreshOutcome`; every call counts as one refresh attempt |
| Background.ServiceWorker.GetValidAccessToken | background.js:208-228 | result, storage and request log follow `ValidTokenOutcome`; a refresh is attempted exactly when the token is truthy and `now >= expires_at - 300000` |
| Playlist.SmallestIndex | content-script.js:641-643 | the `reduce` settles on an image of minimal width, the first of equally narrow ones |
| Playlist.SmallestAlbumImageIsNarrowest | content-script.js:635-644 | null exactly for no images; otherwise the url of the first narrowest image |
| Playlist.SmallestAlbumImage | content-script.js:635-644 | `getSmallestAlbumImage`: null for no images, else the url the width `reduce` settles on; `SmallestAlbumImageIsNarrowest` states its meaning |
| Playlist.SongsOfKept | content-script.js:322-332 | a page of kept entries gives one song per entry, in order |
| Playlist.SongsOfAppend | content-script.js:334 | converting two runs of entries one after the other gives the concatenated songs |
| Playlist.SongsOfPagesAppend | content-script.js:321-340 | one more page appends that page's songs |
| Playlist.SongsOfFlatten | content-script.js:353-366 | converting all fetched entries at once gives the same songs as converting page by page |
| Playlist.NonEmpty | content-script.js:501 | the terms are exactly the non-empty pieces |
| Playlist.FilterTerms | content-script.js:503-513 | the filtered list is never longer than the list |
| Playlist.Filter | content-script.js:493-514 | an empty query returns the song list itself |
| Playlist.FilterTermsMembership | content-script.js:503-513 | a song survives exactly when it is in the list and its searchable text contains every term |
| Playlist.FilterMembership | content-script.js:493-514 | a song is in the result exactly when it is in the list and the query is empty or every lowercased non-empty term occurs in its lowercased name, artists and album |
| Playlist.FilterTermsAppend | content-script.js:503-513 | filtering a concatenation concatenates the filtered parts |
| Playlist.FilterAppend | content-script.js:493-514 | filtering a list loaded page by page gives the pages' filtered songs, in order |
| Playlist.FilterTermsSubsequence | content-script.js:503-513 | the filtered songs are a subsequence of the list |
| Playlist.SubsequenceSkip | content-script.js:503 | a subsequence of the tail is a subsequence of the list |
| Playlist.SubsequenceTail | content-script.js:503 | dropping the first element of a subsequence keeps it a subsequence |
| Playlist.FilterIsSubsequence | content-script.js:493-514 | `filter_songs` returns an order-preserving subsequence of `playlist_songs` |
| Playlist.SubsequenceReflexive | content-script.js:494-496 | the unfiltered list is a subsequence of itself |
| Playlist.FilterIgnoresCase | content-script.js:499-510 | a query and its lowercase form select the same songs |
| Playlist.FilterTermsNoTerms | content-script.js:501-513 | with no terms, `every` holds for every song, so every song is kept |
| Playlist.EscapeHtmlSafe | content-script.js:1114-1121 | the escaped text contains no raw `<`, `>`, `"` or `'` |
| Playlist.EscapeHtml | content-script.js:1114-1121 | `escape_html`: the five chained global replacements, `&` first; `EscapeHtmlSafe`, `EscapeHtmlIsPerCharacter` and `UnescapeEscape` state what it guarantees |
| Playlist.EscapeHtmlAppend | content-script.js:1114-1121 | escaping acts on a concatenation part by part |
| Playlist.EscapeHtmlChar | content-script.js:1114-1121 | a single character is escaped to its entity; because `&` goes first, no entity is escaped twice |
| Playlist.AfterAmpChar | content-script.js:1116-1120 | after the `&` step, the remaining four replacements escape any other single character to its entity |
| Playlist.AfterLtChar | content-script.js:1117-1120 | the last three replacements escape a character other than `&` or `<` |
| Playlist.AfterGtChar | content-script.js:1118-1120 | the last two replacements escape a character other than `&`, `<` or `>` |
| Playlist.PlainAfterAmp | content-script.js:1116-1120 | the steps after `&` leave an entity such as `&amp;` untouched |
| Playlist.PlainAfterLt | content-script.js:1117-1120 | the steps after `<` leave `&lt;` untouched |
| Playlist.PlainAfterGt | content-script.js:1118-1120 | the steps after `>` leave `&gt;` untouched |
| Playlist.EscapeHtmlIsPerCharacter | content-script.js:1114-1121 | the five chained replacements amount to replacing each character by its entity |
| Playlist.EscapeHtmlPlain | content-script.js:1114-1121 | text without any of the five characters is returned unchanged |
| Playlist.UnescapeEscape | content-script.js:1114-1121 | decoding the five entities gives back the original, so escaping is injective |
| Playlist.UnescapeEscapeEach | content-script.js:1114-1121 | decoding undoes the per-character escaping |
| Playlist.IndexOf | content-script.js:24 | `indexOf` is -1 exactly when the segment is absent; otherwise it is the first position holding it |
| Playlist.PlaylistIdIn | content-script.js:23-28 | an id is found exactly when some `playlist` segment has a segment after it; the id is the segment after the first `playlist` |
| Playlist.PlaylistIdFromPath | content-script.js:22-29 | `extract_playlist_id`: the path split on `/`, then the segment after the first `playlist`, as `PlaylistIdIn` states |
| Playlist.ScrollTarget | content-script.js:752-753 | the target lies below the header and the first row, on a row boundary |
| Playlist.ScrollTargetOrdered | content-script.js:752-753 | later rows get strictly larger targets, and the row can be read back from its target |
| Playlist.MaxAttempts | content-script.js:925 | `Math.ceil(timeout / 500)`: the smallest count of half-second polls that covers the timeout |
| Playlist.TrackIndex | content-script.js:731-733 | `findIndex` by id is -1 exactly when no song has the id, and otherwise the first song with it |
| Playlist.KeptItemsMembership | content-script.js:405-407 | a page keeps exactly the entries with a track that has a non-empty id |
| Playlist.KeptItems | content-script.js:405-407 | the `filter` on `item.track && item.track.id`; `KeptItemsMembership` states which entries it keeps |
| Playlist.FlattenAppend | content-script.js:408 | `all_tracks.push(...page)` appends the page to the concatenation |
| Playlist.AllKeptAppend | content-script.js:408 | appending kept entries to kept entries keeps them kept |
| Playlist.FetchLoopStep | content-script.js:389-416 | a reply that is OK and has a cursor contributes its page, followed by the fetch from the next reply |
| Playlist.FirstTerminal | content-script.js:389-416 | the reply that ends the pagination is the first that is not OK or has no cursor |
| Playlist.FetchFromPages | content-script.js:381-419 | the callback receives one page per reply, each with its kept entries, up to the first reply that ends the pagination; a non-OK reply throws its error, 401 singled out; otherwise the result is the pages' concatenation |
| Playlist.FetchFrom | content-script.js:381-419 | the reference definition of the pagination from reply i on; `FetchFromPages` states its pages, error and result, and `FetchPlaylistTracks` is proved equal to it |
| Playlist.FetchPlaylistTracks | content-script.js:381-419 | the `while (next_url)` loop returns what `FetchFrom` specifies; on success that is the concatenation of the delivered pages, all of them kept entries |
| Session.NextIndex | content-script.js:438-439 | `(i + 1) % n` stays in range, wraps from the last result to the first, and otherwise moves down one |
| Session.PrevIndex | content-script.js:447-450 | the previous index stays in range; with no selection or at the top it is the last result, otherwise the one above |
| Session.NextPrevInverse | content-script.js:433-453 | down then up, or up then down, returns to the same result |
| Session.StepsDownWalks | content-script.js:433-441 | repeated down presses walk the results one by one and wrap to the first after the last |
| Session.SearchSession.constructor | content-script.js:6-13 | the initial state: no songs, no playlist, not fetching, first fetch pending, no selection |
| Session.SearchSession.ExtractPlaylistId | content-script.js:22-29 | the id becomes the segment after the first `playlist` segment of the path when there is one, and otherwise stays as it was |
| Session.SearchSession.ResetKeyboardNavigation | content-script.js:427-431 | navigation is off and nothing is selected |
| Session.SearchSession.RenderSongs | content-script.js:516-612 | the rendered songs become the navigable results with no selection; an empty list shows "Loading songs..." during the first load and "No songs found" after it |
| Session.SearchSession.HandleSearchInput | content-script.js:421-425 | the results are the songs filtered by the trimmed query, and nothing is selected |
| Session.SearchSession.NavigateToNextResult | content-script.js:433-441 | with no results nothing changes; otherwise navigation is on and the index becomes `NextIndex`; the selection stays valid |
| Session.SearchSession.NavigateToPreviousResult | content-script.js:443-453 | with no results nothing changes; otherwise navigation is on and the index becomes `PrevIndex`; the selection stays valid |
| Session.SearchSession.SelectedOnEnter | content-script.js:260-281 | Enter selects only a song that is among the results on screen |
| Session.EnterGuard | content-script.js:260-281 | in a valid state Enter selects exactly while navigation is on, and then the highlighted song |
| Session.SearchSession.BeginLoad | content-script.js:294-304 | without a playlist id the error state shows "Unable to get playlist information"; nothing happens while a load runs; otherwise `is_fetching` is set |
| Session.SearchSession.FinishLoad | content-script.js:306-378 | without a token nothing is loaded; a first load appends every delivered page and is cleared only by success; a later load replaces the songs only on success; the shown list is the songs filtered by the trimmed query; a failed fetch shows "Unable to get playlist songs"; `is_fetching` is always cleared |
| Session.SearchSession.ApplyFetched | content-script.js:319-371 | what the first load and a later load make of the fetched pages, success or failure |
| Session.SearchSession.AppendPages | content-script.js:321-347 | after the callback has run for every page, the songs are the old songs followed by every page's songs, and the shown list is their filtered view |
| Session.SearchSession.OnPageFetched | content-script.js:321-340 | one page's songs are appended and the whole list is shown filtered by the current query, with no selection |
| Session.SearchSession.ResetOnNavigation | content-script.js:1134-1154 | on a new address the songs, playlist id, results and selection are cleared and a first load is pending again; `is_fetching` is kept; the same address changes nothing |
| Session.ScrollTargetFor | content-script.js:731-753 | no target exactly when the song is not in the playlist; otherwise the target of the first row with the song's id |

## Left out

- DOM and UI are not modelled: button injection, the dialog, the generated HTML, focus, `update_selection_display` and `scroll_selected_into_view`. `RenderSongs` keeps only the state it changes and the empty-list placeholder text.
- The virtualised-list track locator (`findPlaylistContainer`, `waitForTrackAndFind`, `scrollToLoadTrack`, `clickTrackPlayButton`, the currently-playing search) is not modelled. It depends on layout values, timers and floating-point viewport arithmetic. Only the integer target offset, the `findIndex` lookup and `Math.ceil(timeout / 500)` are modelled.
- Console logging, the message listeners and popup.js are not modelled.
- `toLowerCase` is modelled on ASCII letters only. Unicode case mapping is not modelled.
- `chrome.storage`, `fetch`, `chrome.identity.launchWebAuthFlow`, `crypto.getRandomValues` and `crypto.subtle.digest` are inputs, not calls:
  - storage is a synchronous map;
  - the redirect is its list of query pairs;
  - each HTTP reply is a value;
  - `Date.now()` is the parameter `now`.
- Building the authorization URL and the form bodies with `URLSearchParams` is not modelled. The requests are logged as their parameter values.
- Interleavings of the asynchronous load with other handlers are not modelled. The page callback runs after each page in order, and the search box holds one query throughout a load.
- The array aliasing of `filter_songs` with an empty query is not modelled. It returns `playlist_songs` itself, and the model's values cannot alias. No handler observes the difference, because every push is followed by a fresh render.
- Background.ServiceWorker.InitiateOAuthFlow: the secrets are computed from the random bytes before the client-id check. They are pure values of inputs and are stored only after the check, so nothing observable changes.
- Session.SearchSession.FinishLoad: the access token is not passed to the fetch. The model sees only whether the background worker granted one.
- A `fetch` of a playlist page that rejects, such as on a network failure, is not a case of the reply type. The `catch` of `load_playlist_songs` treats every thrown error alike, so the session behaves as for a non-OK reply, which is modelled.
- A reply body that fails to parse as JSON is not modelled.
