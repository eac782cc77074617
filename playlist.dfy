/** The pure helpers of the playlist search overlay: the Web API track
    records and the songs built from them, the search filter, HTML
    escaping, the album-image choice, the playlist id lookup in a URL path,
    the scroll arithmetic of the track locator, and the paginated fetch of
    a playlist's tracks. */
module Playlist {
  import opened Wrappers
  import Text

  // ---------------------------------------------------------------------
  // Web API records and songs
  // ---------------------------------------------------------------------

  datatype Image = Image(url: string, width: int)
  datatype ApiArtist = ApiArtist(name: string, spotifyUrl: string)
  datatype ApiAlbum = ApiAlbum(name: string, spotifyUrl: string, images: seq<Image>)
  datatype Track = Track(id: Option<string>, name: string, artists: seq<ApiArtist>, album: ApiAlbum)
  /** One entry of a playlist page's `items`; `track` is null for removed
      or local entries. */
  datatype Item = Item(track: Option<Track>)

  datatype Artist = Artist(name: string, url: string)
  /** A song as the overlay keeps it. */
  datatype Song = Song(
    id: string, name: string, artists: seq<Artist>,
    album: string, albumUrl: string, albumImage: Option<string>)

  /** `item.track && item.track.id`: the entry has a track with a non-empty id. */
  predicate KeepItem(item: Item)
  {
    item.track.Some? && item.track.value.id.Some? && item.track.value.id.value != ""
  }

  predicate AllKept(items: seq<Item>)
  {
    forall k :: 0 <= k < |items| ==> KeepItem(items[k])
  }

  /** `getSmallestAlbumImage`: the index `reduce` settles on, keeping the
      earlier image on a tie. */
  function SmallestIndex(images: seq<Image>): (i: nat)
    requires images != []
    ensures i < |images|
    ensures forall j :: 0 <= j < |images| ==> images[i].width <= images[j].width
    ensures forall j :: 0 <= j < i ==> images[j].width > images[i].width
    decreases |images|
  {
    if |images| == 1 then 0
    else
      var best := SmallestIndex(images[..|images| - 1]);
      if images[|images| - 1].width < images[best].width then |images| - 1 else best
  }

  /** The url of the narrowest album image, the first of several equally
      narrow ones; none for an empty list. */
  function SmallestAlbumImage(images: seq<Image>): Option<string>
  {
    if images == [] then None else Some(images[SmallestIndex(images)].url)
  }

  lemma SmallestAlbumImageIsNarrowest(images: seq<Image>)
    ensures SmallestAlbumImage(images).None? <==> images == []
    ensures var r := SmallestAlbumImage(images);
            r.Some? ==> exists i :: 0 <= i < |images| && r.value == images[i].url
                                    && (forall j :: 0 <= j < |images| ==> images[i].width <= images[j].width)
                                    && (forall j :: 0 <= j < i ==> images[j].width > images[i].width)
  {
    if images != [] {
      var i := SmallestIndex(images);
      assert images[i].url == SmallestAlbumImage(images).value;
    }
  }

  /** The song `load_playlist_songs` builds from a kept entry. */
  function SongOf(item: Item): Song
    requires KeepItem(item)
  {
    var t := item.track.value;
    Song(t.id.value, t.name,
         seq(|t.artists|, k requires 0 <= k < |t.artists| => Artist(t.artists[k].name, t.artists[k].spotifyUrl)),
         t.album.name, t.album.spotifyUrl, SmallestAlbumImage(t.album.images))
  }

  /** The songs `load_playlist_songs` builds from a page: one per kept
      entry, in order (the fetch hands over only kept entries). */
  function SongsOf(items: seq<Item>): (r: seq<Song>)
    ensures |r| <= |items|
  {
    if items == [] then []
    else (if KeepItem(items[0]) then [SongOf(items[0])] else []) + SongsOf(items[1..])
  }

  /** On a page of kept entries there is exactly one song per entry, built
      from the entry at the same position. */
  lemma {:induction false} SongsOfKept(items: seq<Item>)
    requires AllKept(items)
    ensures |SongsOf(items)| == |items|
    ensures forall k :: 0 <= k < |items| ==> SongsOf(items)[k] == SongOf(items[k])
    decreases |items|
  {
    if items != [] {
      SongsOfKept(items[1..]);
    }
  }

  lemma {:induction false} SongsOfAppend(a: seq<Item>, b: seq<Item>)
    ensures SongsOf(a + b) == SongsOf(a) + SongsOf(b)
    decreases |a|
  {
    if a == [] {
      assert a + b == b;
    } else {
      var head := if KeepItem(a[0]) then [SongOf(a[0])] else [];
      assert (a + b)[0] == a[0];
      assert (a + b)[1..] == a[1..] + b;
      assert SongsOf(a + b) == head + SongsOf(a[1..] + b);
      SongsOfAppend(a[1..], b);
      assert head + (SongsOf(a[1..]) + SongsOf(b)) == (head + SongsOf(a[1..])) + SongsOf(b);
    }
  }

  /** The songs of every page, page after page. */
  function SongsOfPages(pages: seq<seq<Item>>): seq<Song>
  {
    if pages == [] then [] else SongsOf(pages[0]) + SongsOfPages(pages[1..])
  }

  lemma {:induction false} SongsOfPagesAppend(pages: seq<seq<Item>>, page: seq<Item>)
    ensures SongsOfPages(pages + [page]) == SongsOfPages(pages) + SongsOf(page)
    decreases |pages|
  {
    if pages == [] {
      assert [] + [page] == [page];
      assert [page][1..] == [];
    } else {
      assert (pages + [page])[0] == pages[0];
      assert (pages + [page])[1..] == pages[1..] + [page];
      assert SongsOfPages(pages + [page]) == SongsOf(pages[0]) + SongsOfPages(pages[1..] + [page]);
      SongsOfPagesAppend(pages[1..], page);
      assert SongsOf(pages[0]) + (SongsOfPages(pages[1..]) + SongsOf(page))
          == (SongsOf(pages[0]) + SongsOfPages(pages[1..])) + SongsOf(page);
    }
  }

  // ---------------------------------------------------------------------
  // The search filter
  // ---------------------------------------------------------------------

  function ArtistNames(artists: seq<Artist>): (r: seq<string>)
    ensures |r| == |artists| && forall k :: 0 <= k < |artists| ==> r[k] == artists[k].name
  {
    seq(|artists|, k requires 0 <= k < |artists| => artists[k].name)
  }

  /** Name, artist names and album joined by spaces, lowercased. */
  function SearchableText(song: Song): string
  {
    Text.Lower(Text.Join([song.name] + ArtistNames(song.artists) + [song.album], " "))
  }

  /** The non-empty pieces, in order. */
  function NonEmpty(pieces: seq<string>): (r: seq<string>)
    ensures forall t :: t in r <==> t in pieces && t != ""
  {
    if pieces == [] then []
    else (if pieces[0] == "" then [] else [pieces[0]]) + NonEmpty(pieces[1..])
  }

  /** The lowercased, space-separated, non-empty terms of a query. */
  function Terms(query: string): seq<string>
  {
    NonEmpty(Text.Split(Text.Lower(query), ' '))
  }

  /** The song's searchable text contains every term. */
  predicate MatchesAll(song: Song, terms: seq<string>)
  {
    forall t :: t in terms ==> Text.Contains(SearchableText(song), t)
  }

  function FilterTerms(songs: seq<Song>, terms: seq<string>): (r: seq<Song>)
    ensures |r| <= |songs|
  {
    if songs == [] then []
    else (if MatchesAll(songs[0], terms) then [songs[0]] else []) + FilterTerms(songs[1..], terms)
  }

  /** `filter_songs`: an empty query gives back the list itself; otherwise
      the songs that match every term of the query, in their order. */
  function Filter(songs: seq<Song>, query: string): (r: seq<Song>)
    ensures query == "" ==> r == songs
    ensures |r| <= |songs|
  {
    if query == "" then songs else FilterTerms(songs, Terms(query))
  }

  lemma {:induction false} FilterTermsMembership(songs: seq<Song>, terms: seq<string>, s: Song)
    ensures s in FilterTerms(songs, terms) <==> s in songs && MatchesAll(s, terms)
    decreases |songs|
  {
    if songs != [] {
      FilterTermsMembership(songs[1..], terms, s);
      assert songs == [songs[0]] + songs[1..];
    }
  }

  /** A song is in the result exactly when it is in the list and the query
      is empty or every one of its terms occurs in the song's text. */
  lemma FilterMembership(songs: seq<Song>, query: string, s: Song)
    ensures s in Filter(songs, query) <==> s in songs && (query == "" || MatchesAll(s, Terms(query)))
  {
    if query != "" {
      FilterTermsMembership(songs, Terms(query), s);
    }
  }

  lemma {:induction false} FilterTermsAppend(a: seq<Song>, b: seq<Song>, terms: seq<string>)
    ensures FilterTerms(a + b, terms) == FilterTerms(a, terms) + FilterTerms(b, terms)
    decreases |a|
  {
    if a == [] {
      assert a + b == b;
    } else {
      var head := if MatchesAll(a[0], terms) then [a[0]] else [];
      assert (a + b)[0] == a[0];
      assert (a + b)[1..] == a[1..] + b;
      assert FilterTerms(a + b, terms) == head + FilterTerms(a[1..] + b, terms);
      FilterTermsAppend(a[1..], b, terms);
      assert head + (FilterTerms(a[1..], terms) + FilterTerms(b, terms))
          == (head + FilterTerms(a[1..], terms)) + FilterTerms(b, terms);
    }
  }

  /** Filtering keeps the order: filtering a concatenation concatenates
      the filtered parts, so a list loaded page by page filters to the
      pages' filtered songs. */
  lemma FilterAppend(a: seq<Song>, b: seq<Song>, query: string)
    ensures Filter(a + b, query) == Filter(a, query) + Filter(b, query)
  {
    if query != "" {
      FilterTermsAppend(a, b, Terms(query));
    }
  }

  /** `s` is `t` with some elements left out and the rest in their order. */
  predicate IsSubsequence(s: seq<Song>, t: seq<Song>)
    decreases |t|
  {
    if s == [] then true
    else if t == [] then false
    else if s[0] == t[0] then IsSubsequence(s[1..], t[1..])
    else IsSubsequence(s, t[1..])
  }

  lemma {:induction false} FilterTermsSubsequence(songs: seq<Song>, terms: seq<string>)
    ensures IsSubsequence(FilterTerms(songs, terms), songs)
    decreases |songs|
  {
    if songs != [] {
      FilterTermsSubsequence(songs[1..], terms);
      var rest := FilterTerms(songs[1..], terms);
      if MatchesAll(songs[0], terms) {
        assert FilterTerms(songs, terms) == [songs[0]] + rest;
        assert ([songs[0]] + rest)[1..] == rest;
      } else {
        assert FilterTerms(songs, terms) == rest;
        SubsequenceSkip(rest, songs);
      }
    }
  }

  /** A subsequence of the tail is a subsequence. */
  lemma {:induction false} SubsequenceSkip(s: seq<Song>, t: seq<Song>)
    requires t != [] && IsSubsequence(s, t[1..])
    ensures IsSubsequence(s, t)
    decreases |t|, 0
  {
    if s != [] && s[0] == t[0] {
      SubsequenceTail(s, t[1..]);
    }
  }

  /** Leaving out the first element of a subsequence keeps it one. */
  lemma {:induction false} SubsequenceTail(s: seq<Song>, u: seq<Song>)
    requires s != [] && IsSubsequence(s, u)
    ensures IsSubsequence(s[1..], u)
    decreases |u|, 1
  {
    if s[1..] != [] {
      if s[0] == u[0] {
        SubsequenceSkip(s[1..], u);
      } else {
        SubsequenceTail(s, u[1..]);
        SubsequenceSkip(s[1..], u);
      }
    }
  }

  /** `filter_songs` returns an order-preserving subsequence of the list. */
  lemma FilterIsSubsequence(songs: seq<Song>, query: string)
    ensures IsSubsequence(Filter(songs, query), songs)
  {
    if query == "" {
      SubsequenceReflexive(songs);
    } else {
      FilterTermsSubsequence(songs, Terms(query));
    }
  }

  lemma {:induction false} SubsequenceReflexive(s: seq<Song>)
    ensures IsSubsequence(s, s)
    decreases |s|
  {
    if s != [] {
      SubsequenceReflexive(s[1..]);
    }
  }

  /** The search is case-insensitive: a query and its lowercase form select
      the same songs. */
  lemma FilterIgnoresCase(songs: seq<Song>, query: string)
    ensures Filter(songs, Text.Lower(query)) == Filter(songs, query)
  {
    Text.LowerIdempotent(query);
  }

  /** A non-empty query made only of spaces has no terms and keeps every song. */
  lemma {:induction false} FilterTermsNoTerms(songs: seq<Song>)
    ensures FilterTerms(songs, []) == songs
    decreases |songs|
  {
    if songs != [] {
      FilterTermsNoTerms(songs[1..]);
    }
  }

  // ---------------------------------------------------------------------
  // HTML escaping
  // ---------------------------------------------------------------------

  /** `escape_html`: five global replacements, `&` first. */
  function EscapeHtml(s: string): string
  {
    var a := Text.ReplaceChar(s, '&', "&amp;");
    var b := Text.ReplaceChar(a, '<', "&lt;");
    var c := Text.ReplaceChar(b, '>', "&gt;");
    var d := Text.ReplaceChar(c, '"', "&quot;");
    Text.ReplaceChar(d, '\'', "&#039;")
  }

  /** The escaped text has no `<`, `>`, `"` or `'` left to break out of an
      element or an attribute value. */
  lemma EscapeHtmlSafe(s: string)
    ensures var r := EscapeHtml(s);
            '<' !in r && '>' !in r && '"' !in r && '\'' !in r
  {
    var a := Text.ReplaceChar(s, '&', "&amp;");
    var b := Text.ReplaceChar(a, '<', "&lt;");
    var c := Text.ReplaceChar(b, '>', "&gt;");
    var d := Text.ReplaceChar(c, '"', "&quot;");
    Text.ReplaceCharRemoves(a, '<', "&lt;");
    Text.ReplaceCharKeepsAbsent(b, '>', "&gt;", '<');
    Text.ReplaceCharKeepsAbsent(c, '"', "&quot;", '<');
    Text.ReplaceCharKeepsAbsent(d, '\'', "&#039;", '<');
    Text.ReplaceCharRemoves(b, '>', "&gt;");
    Text.ReplaceCharKeepsAbsent(c, '"', "&quot;", '>');
    Text.ReplaceCharKeepsAbsent(d, '\'', "&#039;", '>');
    Text.ReplaceCharRemoves(c, '"', "&quot;");
    Text.ReplaceCharKeepsAbsent(d, '\'', "&#039;", '"');
    Text.ReplaceCharRemoves(d, '\'', "&#039;");
  }

  /** The entity one character becomes. */
  function EscapeChar(c: char): string
  {
    match c
    case '&' => "&amp;"
    case '<' => "&lt;"
    case '>' => "&gt;"
    case '"' => "&quot;"
    case '\'' => "&#039;"
    case _ => [c]
  }

  /** Escaping character by character, the reference for `EscapeHtml`. */
  function EscapeEach(s: string): string
  {
    if s == [] then [] else EscapeChar(s[0]) + EscapeEach(s[1..])
  }

  lemma EscapeHtmlAppend(a: string, b: string)
    ensures EscapeHtml(a + b) == EscapeHtml(a) + EscapeHtml(b)
  {
    var a1, b1 := Text.ReplaceChar(a, '&', "&amp;"), Text.ReplaceChar(b, '&', "&amp;");
    Text.ReplaceCharAppend(a, b, '&', "&amp;");
    var a2, b2 := Text.ReplaceChar(a1, '<', "&lt;"), Text.ReplaceChar(b1, '<', "&lt;");
    Text.ReplaceCharAppend(a1, b1, '<', "&lt;");
    var a3, b3 := Text.ReplaceChar(a2, '>', "&gt;"), Text.ReplaceChar(b2, '>', "&gt;");
    Text.ReplaceCharAppend(a2, b2, '>', "&gt;");
    var a4, b4 := Text.ReplaceChar(a3, '"', "&quot;"), Text.ReplaceChar(b3, '"', "&quot;");
    Text.ReplaceCharAppend(a3, b3, '"', "&quot;");
    Text.ReplaceCharAppend(a4, b4, '\'', "&#039;");
  }

  // The tail of the replacement chain, named step by step so that the
  // proofs below can stop after any of the five replacements.
  function AfterQuot(d: string): string { Text.ReplaceChar(d, '\'', "&#039;") }
  function AfterGt(c: string): string { AfterQuot(Text.ReplaceChar(c, '"', "&quot;")) }
  function AfterLt(b: string): string { AfterGt(Text.ReplaceChar(b, '>', "&gt;")) }
  function AfterAmp(a: string): string { AfterLt(Text.ReplaceChar(a, '<', "&lt;")) }

  /** A single character is escaped to its entity. */
  lemma EscapeHtmlChar(c: char)
    ensures EscapeHtml([c]) == EscapeChar(c)
  {
    assert EscapeHtml([c]) == AfterAmp(Text.ReplaceChar([c], '&', "&amp;"));
    Text.ReplaceCharSingle(c, '&', "&amp;");
    if c == '&' {
      AmpEscaped();
    } else {
      AfterAmpChar(c);
    }
  }

  lemma AmpEscaped()
    ensures AfterAmp("&amp;") == "&amp;"
  {
    PlainAfterAmp("&amp;");
  }

  lemma AfterAmpChar(c: char)
    requires c != '&'
    ensures AfterAmp([c]) == EscapeChar(c)
  {
    Text.ReplaceCharSingle(c, '<', "&lt;");
    if c == '<' {
      PlainAfterLt("&lt;");
    } else {
      AfterLtChar(c);
    }
  }

  lemma AfterLtChar(c: char)
    requires c != '&' && c != '<'
    ensures AfterLt([c]) == EscapeChar(c)
  {
    Text.ReplaceCharSingle(c, '>', "&gt;");
    if c == '>' {
      PlainAfterGt("&gt;");
    } else {
      AfterGtChar(c);
    }
  }

  lemma AfterGtChar(c: char)
    requires c != '&' && c != '<' && c != '>'
    ensures AfterGt([c]) == EscapeChar(c)
  {
    Text.ReplaceCharSingle(c, '"', "&quot;");
    Text.ReplaceCharSingle(c, '\'', "&#039;");
    if c == '"' {
      Text.ReplaceCharAbsent("&quot;", '\'', "&#039;");
    }
  }

  /** The replacements after the `&` one leave a string without the
      characters they replace as it is. */
  lemma PlainAfterAmp(e: string)
    requires '<' !in e && '>' !in e && '"' !in e && '\'' !in e
    ensures AfterAmp(e) == e
  {
    Text.ReplaceCharAbsent(e, '<', "&lt;");
    PlainAfterLt(e);
  }

  lemma PlainAfterLt(e: string)
    requires '>' !in e && '"' !in e && '\'' !in e
    ensures AfterLt(e) == e
  {
    Text.ReplaceCharAbsent(e, '>', "&gt;");
    PlainAfterGt(e);
  }

  lemma PlainAfterGt(e: string)
    requires '"' !in e && '\'' !in e
    ensures AfterGt(e) == e
  {
    Text.ReplaceCharAbsent(e, '"', "&quot;");
    Text.ReplaceCharAbsent(e, '\'', "&#039;");
  }

  /** Because `&` is replaced first, no entity is escaped twice: the five
      replacements amount to replacing each character by its entity. */
  lemma {:induction false} EscapeHtmlIsPerCharacter(s: string)
    ensures EscapeHtml(s) == EscapeEach(s)
    decreases |s|
  {
    if s == [] {
    } else {
      assert s == [s[0]] + s[1..];
      EscapeHtmlAppend([s[0]], s[1..]);
      EscapeHtmlChar(s[0]);
      EscapeHtmlIsPerCharacter(s[1..]);
    }
  }

  /** Text without any of the five characters is returned unchanged. */
  lemma EscapeHtmlPlain(s: string)
    requires '&' !in s && '<' !in s && '>' !in s && '"' !in s && '\'' !in s
    ensures EscapeHtml(s) == s
  {
    Text.ReplaceCharAbsent(s, '&', "&amp;");
    Text.ReplaceCharAbsent(s, '<', "&lt;");
    Text.ReplaceCharAbsent(s, '>', "&gt;");
    Text.ReplaceCharAbsent(s, '"', "&quot;");
    Text.ReplaceCharAbsent(s, '\'', "&#039;");
  }

  /** Decoding the five entities again, the inverse of the escaping. */
  function Unescape(s: string): string
    decreases |s|
  {
    if s == [] then []
    else if |s| >= 5 && s[..5] == "&amp;" then "&" + Unescape(s[5..])
    else if |s| >= 4 && s[..4] == "&lt;" then "<" + Unescape(s[4..])
    else if |s| >= 4 && s[..4] == "&gt;" then ">" + Unescape(s[4..])
    else if |s| >= 6 && s[..6] == "&quot;" then "\"" + Unescape(s[6..])
    else if |s| >= 6 && s[..6] == "&#039;" then "'" + Unescape(s[6..])
    else [s[0]] + Unescape(s[1..])
  }

  lemma UnescapePlain(c: char, rest: string)
    requires c != '&'
    ensures Unescape([c] + rest) == [c] + Unescape(rest)
  {
    var t := [c] + rest;
    assert t[0] == c && t[1..] == rest;
    assert |t| >= 4 ==> t[..4][0] == c;
    assert |t| >= 5 ==> t[..5][0] == c;
    assert |t| >= 6 ==> t[..6][0] == c;
  }

  lemma UnescapeAmp(rest: string)
    ensures Unescape("&amp;" + rest) == "&" + Unescape(rest)
  {
    var t := "&amp;" + rest;
    assert t[..5] == "&amp;" && t[5..] == rest;
  }

  lemma UnescapeLt(rest: string)
    ensures Unescape("&lt;" + rest) == "<" + Unescape(rest)
  {
    var t := "&lt;" + rest;
    assert t[..4] == "&lt;" && t[4..] == rest;
    assert |t| >= 5 ==> t[..5][1] == 'l';
  }

  lemma UnescapeGt(rest: string)
    ensures Unescape("&gt;" + rest) == ">" + Unescape(rest)
  {
    var t := "&gt;" + rest;
    assert t[..4] == "&gt;" && t[4..] == rest;
    assert |t| >= 5 ==> t[..5][1] == 'g';
    assert t[..4][1] == 'g';
  }

  lemma UnescapeQuot(rest: string)
    ensures Unescape("&quot;" + rest) == "\"" + Unescape(rest)
  {
    var t := "&quot;" + rest;
    assert t[..6] == "&quot;" && t[6..] == rest;
    assert t[..5][1] == 'q' && t[..4][1] == 'q';
  }

  lemma UnescapeApos(rest: string)
    ensures Unescape("&#039;" + rest) == "'" + Unescape(rest)
  {
    var t := "&#039;" + rest;
    assert t[..6] == "&#039;" && t[6..] == rest;
    assert t[..5][1] == '#' && t[..4][1] == '#' && t[..6][1] == '#';
  }

  /** Unescaping the escaped text gives the text back, so escaping loses
      nothing. */
  lemma {:induction false} UnescapeEscape(s: string)
    ensures Unescape(EscapeHtml(s)) == s
    decreases |s|
  {
    EscapeHtmlIsPerCharacter(s);
    UnescapeEscapeEach(s);
  }

  lemma {:induction false} UnescapeEscapeEach(s: string)
    ensures Unescape(EscapeEach(s)) == s
    decreases |s|
  {
    if s != [] {
      var c, rest := s[0], EscapeEach(s[1..]);
      UnescapeEscapeEach(s[1..]);
      match c
      case '&' => UnescapeAmp(rest);
      case '<' => UnescapeLt(rest);
      case '>' => UnescapeGt(rest);
      case '"' => UnescapeQuot(rest);
      case '\'' => UnescapeApos(rest);
      case _ => UnescapePlain(c, rest);
      assert s == [c] + s[1..];
    }
  }

  // ---------------------------------------------------------------------
  // Playlist id, scrolling
  // ---------------------------------------------------------------------

  /** `Array.prototype.indexOf`: the first index holding `x`, or -1. */
  function IndexOf(xs: seq<string>, x: string): (i: int)
    ensures -1 <= i < |xs|
    ensures i == -1 <==> x !in xs
    ensures i >= 0 ==> xs[i] == x && x !in xs[..i]
  {
    if xs == [] then -1
    else if xs[0] == x then 0
    else
      var j := IndexOf(xs[1..], x);
      if j == -1 then -1
      else
        assert xs[..j + 1] == [xs[0]] + xs[1..][..j];
        j + 1
  }

  /** The segment after the first `playlist` segment, when there is one. */
  function PlaylistIdIn(parts: seq<string>): (r: Option<string>)
    ensures r.Some? <==> exists i :: 0 <= i < |parts| - 1 && parts[i] == "playlist"
    ensures r.Some? ==> exists i :: 0 <= i < |parts| - 1 && parts[i] == "playlist"
                                    && "playlist" !in parts[..i] && r.value == parts[i + 1]
  {
    var at := IndexOf(parts, "playlist");
    if at != -1 && at + 1 < |parts| then
      assert 0 <= at < |parts| - 1 && parts[at] == "playlist";
      Some(parts[at + 1])
    else
      assert forall j :: 0 <= j < at ==> parts[..at][j] == parts[j];
      None
  }

  /** `extract_playlist_id`'s lookup in `location.pathname`. */
  function PlaylistIdFromPath(path: string): Option<string>
  {
    PlaylistIdIn(Text.Split(path, '/'))
  }

  const HeaderHeight: int := 64
  const RowHeight: int := 56

  /** The scroll offset `scrollToLoadTrack` aims at for the row at `index`:
      past the header and down to the end of that row. */
  function ScrollTarget(index: nat): (r: int)
    ensures r >= HeaderHeight + RowHeight
    ensures (r - HeaderHeight) % RowHeight == 0
  {
    HeaderHeight + (index + 1) * RowHeight
  }

  /** The row a scroll target was computed for. */
  function RowOfTarget(target: int): int
  {
    (target - HeaderHeight) / RowHeight - 1
  }

  /** Distinct rows get distinct targets, later rows lower down, and the
      row can be read back from the target. */
  lemma ScrollTargetOrdered(i: nat, j: nat)
    ensures i < j <==> ScrollTarget(i) < ScrollTarget(j)
    ensures RowOfTarget(ScrollTarget(i)) == i
  {
    assert ScrollTarget(i) - HeaderHeight == (i + 1) * RowHeight;
  }

  /** `Math.ceil(timeout / 500)`: the polls of half a second that fit in
      the timeout, the last one possibly partial. */
  function MaxAttempts(timeout: int): (r: int)
    ensures 500 * (r - 1) < timeout <= 500 * r
  {
    -((-timeout) / 500)
  }

  /** `findIndex` by song id: the first song with that id, or -1. */
  function TrackIndex(songs: seq<Song>, id: string): (i: int)
    ensures -1 <= i < |songs|
    ensures i == -1 <==> forall k :: 0 <= k < |songs| ==> songs[k].id != id
    ensures i >= 0 ==> songs[i].id == id && forall k :: 0 <= k < i ==> songs[k].id != id
  {
    if songs == [] then -1
    else if songs[0].id == id then 0
    else
      var j := TrackIndex(songs[1..], id);
      if j == -1 then -1 else j + 1
  }

  // ---------------------------------------------------------------------
  // Paginated fetch
  // ---------------------------------------------------------------------

  /** One reply of the playlist-tracks endpoint. The body is read only when
      the status is OK; `next` is the cursor to the following page. */
  datatype Response = Response(status: int, statusText: string, items: seq<Item>, next: Option<string>)

  predicate IsOk(r: Response)
  {
    200 <= r.status <= 299
  }

  /** `while (next_url)`: a null or empty cursor ends the loop. */
  predicate Continues(next: Option<string>)
  {
    next.Some? && next.value != ""
  }

  /** A reply after which no further page is requested. */
  predicate Terminal(r: Response)
  {
    !IsOk(r) || !Continues(r.next)
  }

  datatype FetchError = Unauthorized | HttpError(status: int, statusText: string)

  /** The error thrown for a reply that is not OK, 401 singled out. */
  function ErrorOf(r: Response): FetchError
  {
    if r.status == 401 then Unauthorized else HttpError(r.status, r.statusText)
  }

  /** The entries of a page that are kept, in order. */
  function KeptItems(items: seq<Item>): seq<Item>
  {
    if items == [] then []
    else (if KeepItem(items[0]) then [items[0]] else []) + KeptItems(items[1..])
  }

  /** Exactly the entries with a track that has an id are kept. */
  lemma {:induction false} KeptItemsMembership(items: seq<Item>)
    ensures AllKept(KeptItems(items))
    ensures forall x :: x in KeptItems(items) <==> x in items && KeepItem(x)
    decreases |items|
  {
    if items != [] {
      KeptItemsMembership(items[1..]);
      assert items == [items[0]] + items[1..];
      var head := if KeepItem(items[0]) then [items[0]] else [];
      AllKeptAppend(head, KeptItems(items[1..]));
    }
  }

  /** The result of `fetch_playlist_tracks` and the pages handed to the
      callback, in order. */
  datatype Fetched = Fetched(result: Result<seq<Item>, FetchError>, delivered: seq<seq<Item>>)

  /** The replies from `i` on include one that ends the pagination. */
  predicate EndsFrom(responses: seq<Response>, i: nat)
  {
    exists k :: i <= k < |responses| && Terminal(responses[k])
  }

  function Prepend(items: seq<Item>, r: Result<seq<Item>, FetchError>): Result<seq<Item>, FetchError>
  {
    if r.Ok? then Ok(items + r.value) else r
  }

  /** What fetching from the `i`-th reply on yields. */
  function FetchFrom(responses: seq<Response>, i: nat): Fetched
    requires i <= |responses| && EndsFrom(responses, i)
    decreases |responses| - i
  {
    var r := responses[i];
    if !IsOk(r) then Fetched(Err(ErrorOf(r)), [])
    else
      var kept := KeptItems(r.items);
      if !Continues(r.next) then Fetched(Ok(kept), [kept])
      else
        var rest := FetchFrom(responses, i + 1);
        Fetched(Prepend(kept, rest.result), [kept] + rest.delivered)
  }

  /** One more page of a pagination that goes on: the rest of the fetch
      from reply `i` is that page followed by the fetch from reply `i + 1`. */
  lemma FetchLoopStep(responses: seq<Response>, i: nat, before: seq<Item>, delivered: seq<seq<Item>>)
    requires i < |responses| && EndsFrom(responses, i)
    requires IsOk(responses[i]) && Continues(responses[i].next)
    ensures EndsFrom(responses, i + 1)
    ensures var page := KeptItems(responses[i].items);
            var rest := FetchFrom(responses, i);
            var next := FetchFrom(responses, i + 1);
            Fetched(Prepend(before, rest.result), delivered + rest.delivered)
              == Fetched(Prepend(before + page, next.result), (delivered + [page]) + next.delivered)
  {
    var k :| i <= k < |responses| && Terminal(responses[k]);
    assert i + 1 <= k;
    var page := KeptItems(responses[i].items);
    var next := FetchFrom(responses, i + 1);
    assert delivered + ([page] + next.delivered) == (delivered + [page]) + next.delivered;
    if next.result.Ok? {
      assert before + (page + next.result.value) == (before + page) + next.result.value;
    }
  }

  /** The concatenation of the pages. */
  function Flatten(pages: seq<seq<Item>>): seq<Item>
  {
    if pages == [] then [] else pages[0] + Flatten(pages[1..])
  }

  lemma FlattenAppend(a: seq<seq<Item>>, b: seq<seq<Item>>)
    ensures Flatten(a + b) == Flatten(a) + Flatten(b)
  {
    if a == [] {
      assert a + b == b;
    } else {
      assert (a + b)[1..] == a[1..] + b;
      FlattenAppend(a[1..], b);
    }
  }

  /** Converting all entries at once gives the pages' songs in order. */
  lemma {:induction false} SongsOfFlatten(pages: seq<seq<Item>>)
    ensures SongsOf(Flatten(pages)) == SongsOfPages(pages)
    decreases |pages|
  {
    if pages != [] {
      SongsOfFlatten(pages[1..]);
      SongsOfAppend(pages[0], Flatten(pages[1..]));
    }
  }

  lemma AllKeptAppend(a: seq<Item>, b: seq<Item>)
    requires AllKept(a) && AllKept(b)
    ensures AllKept(a + b)
  {
    assert forall k :: 0 <= k < |a + b| ==> (a + b)[k] == (if k < |a| then a[k] else b[k - |a|]);
  }

  /** The index of the reply that ends the pagination from `i` on. */
  function FirstTerminal(responses: seq<Response>, i: nat): (k: nat)
    requires i <= |responses| && EndsFrom(responses, i)
    ensures i <= k < |responses| && Terminal(responses[k])
    ensures forall j :: i <= j < k ==> !Terminal(responses[j])
    decreases |responses| - i
  {
    if Terminal(responses[i]) then i else FirstTerminal(responses, i + 1)
  }

  /** The pagination, reply by reply: one page per reply up to the first
      reply that ends it; that reply's page is delivered too when it is OK,
      otherwise its error is the result; on success the result is all
      delivered pages in order. */
  lemma {:induction false} FetchFromPages(responses: seq<Response>, i: nat)
    requires i <= |responses| && EndsFrom(responses, i)
    ensures var f := FetchFrom(responses, i);
            var k := FirstTerminal(responses, i);
            && |f.delivered| == (if IsOk(responses[k]) then k - i + 1 else k - i)
            && (forall j :: 0 <= j < |f.delivered| ==> f.delivered[j] == KeptItems(responses[i + j].items))
            && (f.result.Ok? <==> IsOk(responses[k]))
            && (f.result.Ok? ==> f.result.value == Flatten(f.delivered))
            && (f.result.Err? ==> f.result.error == ErrorOf(responses[k]))
    decreases |responses| - i
  {
    var r := responses[i];
    if !Terminal(r) {
      FetchFromPages(responses, i + 1);
      var rest := FetchFrom(responses, i + 1);
      var d := [KeptItems(r.items)] + rest.delivered;
      assert d[1..] == rest.delivered;
      assert forall j :: 1 <= j < |d| ==> d[j] == rest.delivered[j - 1];
    }
  }

  /** `fetch_playlist_tracks`: request page after page until a reply ends
      the pagination; returns the kept entries of every page, or the error
      of the first reply that is not OK, and the pages passed to the
      callback. The `i`-th request receives `responses[i]`. */
  method FetchPlaylistTracks(responses: seq<Response>)
    returns (result: Result<seq<Item>, FetchError>, delivered: seq<seq<Item>>)
    requires EndsFrom(responses, 0)
    ensures Fetched(result, delivered) == FetchFrom(responses, 0)
    ensures result.Ok? ==> result.value == Flatten(delivered) && AllKept(result.value)
  {
    var allTracks: seq<Item> := [];
    delivered := [];
    var i := 0;
    ghost var whole := FetchFrom(responses, 0);
    if whole.result.Ok? {
      assert [] + whole.result.value == whole.result.value;
    }
    assert [] + whole.delivered == whole.delivered;
    while true
      invariant 0 <= i < |responses| && EndsFrom(responses, i)
      invariant allTracks == Flatten(delivered) && AllKept(allTracks)
      invariant var rest := FetchFrom(responses, i);
                whole == Fetched(Prepend(allTracks, rest.result), delivered + rest.delivered)
      decreases |responses| - i
    {
      var response := responses[i];
      if !IsOk(response) {
        assert delivered + [] == delivered;
        result := Err(ErrorOf(response));
        return;
      }
      var pageTracks := KeptItems(response.items);
      KeptItemsMembership(response.items);
      FlattenAppend(delivered, [pageTracks]);
      AllKeptAppend(allTracks, pageTracks);
      if !Continues(response.next) {
        allTracks := allTracks + pageTracks;
        delivered := delivered + [pageTracks];
        result := Ok(allTracks);
        return;
      }
      FetchLoopStep(responses, i, allTracks, delivered);
      allTracks := allTracks + pageTracks;
      delivered := delivered + [pageTracks];
      i := i + 1;
    }
  }
}
