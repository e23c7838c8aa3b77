/**
 * The client-side collage pipeline of public/js/create_collage.js:
 * paginate through the track proxy, optionally keep one track per album,
 * sort, take each track's first cover image and lay out an N x N grid.
 * The network is a sequence of page fetches given as input.
 */
module Collage {
  import opened Wrappers
  import opened Sequences
  import opened Strings
  import opened Tracks

  /** Tracks requested per page. */
  const PageLimit: nat := 50

  /** The placeholder for a grid cell without an image. */
  const DefaultCover: string := "/images/default-cover.jpg"

  // ---------------------------------------------------------------------
  // filterUniqueTracks: first track per album name wins.
  // ---------------------------------------------------------------------

  function AlbumNames(s: seq<Track>): set<string> {
    set i | 0 <= i < |s| :: s[i].album.name
  }

  predicate DistinctAlbums(s: seq<Track>) {
    forall i, j :: 0 <= i < j < |s| ==> s[i].album.name != s[j].album.name
  }

  /** The tracks of s whose album name has not occurred earlier in s, in order. */
  function UniqueByAlbum(s: seq<Track>): (r: seq<Track>)
    ensures forall t :: t in r ==> t in s
    ensures s != [] ==> r != []
  {
    if s == [] then []
    else
      var init, last := s[..|s| - 1], s[|s| - 1];
      if last.album.name in AlbumNames(init) then UniqueByAlbum(init) else UniqueByAlbum(init) + [last]
  }

  /** a is an order-preserving subsequence of b. */
  predicate IsSubsequence(a: seq<Track>, b: seq<Track>)
    decreases |b|
  {
    if a == [] then true
    else if b == [] then false
    else if a[|a| - 1] == b[|b| - 1] then IsSubsequence(a[..|a| - 1], b[..|b| - 1])
    else IsSubsequence(a, b[..|b| - 1])
  }

  lemma AlbumNamesAppend(s: seq<Track>, t: seq<Track>)
    ensures AlbumNames(s + t) == AlbumNames(s) + AlbumNames(t)
  {
    var u := s + t;
    forall x | x in AlbumNames(u) ensures x in AlbumNames(s) + AlbumNames(t) {
      var i :| 0 <= i < |u| && u[i].album.name == x;
      if i >= |s| { assert t[i - |s|] == u[i]; }
    }
    forall x | x in AlbumNames(s) + AlbumNames(t) ensures x in AlbumNames(u) {
      if x in AlbumNames(s) {
        var i :| 0 <= i < |s| && s[i].album.name == x;
        assert u[i] == s[i];
      } else {
        var i :| 0 <= i < |t| && t[i].album.name == x;
        assert u[|s| + i] == t[i];
      }
    }
  }

  lemma SplitLast(s: seq<Track>)
    requires s != []
    ensures AlbumNames(s) == AlbumNames(s[..|s| - 1]) + {s[|s| - 1].album.name}
  {
    AlbumNamesAppend(s[..|s| - 1], [s[|s| - 1]]);
    assert s[..|s| - 1] + [s[|s| - 1]] == s;
    assert AlbumNames([s[|s| - 1]]) == {s[|s| - 1].album.name};
  }

  /** Every album name of the input occurs in the output, and no other. */
  lemma {:induction false} UniqueKeepsAlbumNames(s: seq<Track>)
    ensures AlbumNames(UniqueByAlbum(s)) == AlbumNames(s)
  {
    if s != [] {
      var init, last := s[..|s| - 1], s[|s| - 1];
      UniqueKeepsAlbumNames(init);
      SplitLast(s);
      if last.album.name !in AlbumNames(init) {
        SplitLast(UniqueByAlbum(init) + [last]);
        assert (UniqueByAlbum(init) + [last])[..|UniqueByAlbum(init)|] == UniqueByAlbum(init);
      }
    }
  }

  /** The output's album names are pairwise distinct. */
  lemma {:induction false} UniqueHasDistinctAlbums(s: seq<Track>)
    ensures DistinctAlbums(UniqueByAlbum(s))
  {
    if s != [] {
      var init, last := s[..|s| - 1], s[|s| - 1];
      UniqueHasDistinctAlbums(init);
      if last.album.name !in AlbumNames(init) {
        var u := UniqueByAlbum(init);
        UniqueKeepsAlbumNames(init);
        forall i | 0 <= i < |u| ensures u[i].album.name != last.album.name {
          assert u[i].album.name in AlbumNames(u);
        }
      }
    }
  }

  lemma {:induction false} SubsequenceDropLast(a: seq<Track>, b: seq<Track>)
    requires a != [] && IsSubsequence(a, b)
    ensures IsSubsequence(a[..|a| - 1], b)
    decreases |b|, 0
  {
    var a' := a[..|a| - 1];
    if a[|a| - 1] == b[|b| - 1] {
      SubsequenceExtend(a', b[..|b| - 1], b[|b| - 1]);
      assert b[..|b| - 1] + [b[|b| - 1]] == b;
    } else {
      SubsequenceDropLast(a, b[..|b| - 1]);
      SubsequenceExtend(a', b[..|b| - 1], b[|b| - 1]);
      assert b[..|b| - 1] + [b[|b| - 1]] == b;
    }
  }

  lemma {:induction false} SubsequenceExtend(a: seq<Track>, b: seq<Track>, y: Track)
    requires IsSubsequence(a, b)
    ensures IsSubsequence(a, b + [y])
    decreases |b|, 1
  {
    var b' := b + [y];
    assert b'[..|b'| - 1] == b;
    if a != [] && a[|a| - 1] == y {
      SubsequenceDropLast(a, b);
    }
  }

  /** The output is an order-preserving subsequence of the input. */
  lemma {:induction false} UniqueIsSubsequence(s: seq<Track>)
    ensures IsSubsequence(UniqueByAlbum(s), s)
  {
    if s != [] {
      var init, last := s[..|s| - 1], s[|s| - 1];
      UniqueIsSubsequence(init);
      var u := UniqueByAlbum(init);
      assert init + [last] == s;
      if last.album.name in AlbumNames(init) {
        SubsequenceExtend(u, init, last);
      } else {
        assert (u + [last])[..|u|] == u;
      }
    }
  }

  /** A track whose album name has not been seen before it is kept. */
  lemma {:induction false} UniqueKeepsFirstOccurrences(s: seq<Track>, i: nat)
    requires i < |s| && s[i].album.name !in AlbumNames(s[..i])
    ensures s[i] in UniqueByAlbum(s)
  {
    var init, last := s[..|s| - 1], s[|s| - 1];
    if i < |s| - 1 {
      assert init[..i] == s[..i];
      UniqueKeepsFirstOccurrences(init, i);
    } else {
      assert init == s[..i];
    }
  }

  /** Every kept track is the first of its album name in the input. */
  lemma {:induction false} UniqueKeepsOnlyFirstOccurrences(s: seq<Track>, t: Track)
    requires t in UniqueByAlbum(s)
    ensures exists i :: 0 <= i < |s| && s[i] == t && t.album.name !in AlbumNames(s[..i])
  {
    var init, last := s[..|s| - 1], s[|s| - 1];
    if t in UniqueByAlbum(init) {
      UniqueKeepsOnlyFirstOccurrences(init, t);
      var i :| 0 <= i < |init| && init[i] == t && t.album.name !in AlbumNames(init[..i]);
      assert s[..i] == init[..i];
    } else {
      assert t == last && last.album.name !in AlbumNames(init);
      assert s[..|s| - 1] == init;
    }
  }

  /** A sequence whose album names are already distinct is left unchanged. */
  lemma {:induction false} UniqueOfDistinct(s: seq<Track>)
    requires DistinctAlbums(s)
    ensures UniqueByAlbum(s) == s
  {
    if s != [] {
      var init, last := s[..|s| - 1], s[|s| - 1];
      assert DistinctAlbums(init) by {
        forall i, j | 0 <= i < j < |init| ensures init[i].album.name != init[j].album.name {
          assert init[i] == s[i] && init[j] == s[j];
        }
      }
      UniqueOfDistinct(init);
      assert last.album.name !in AlbumNames(init) by {
        forall i | 0 <= i < |init| ensures init[i].album.name != last.album.name {
          assert init[i] == s[i];
        }
      }
      assert init + [last] == s;
    }
  }

  /** filterUniqueTracks is idempotent. */
  lemma UniqueIdempotent(s: seq<Track>)
    ensures UniqueByAlbum(UniqueByAlbum(s)) == UniqueByAlbum(s)
  {
    UniqueHasDistinctAlbums(s);
    UniqueOfDistinct(UniqueByAlbum(s));
  }

  /** The filter on a sequence with one more track at the end. */
  lemma UniqueSnoc(init: seq<Track>, last: Track)
    ensures UniqueByAlbum(init + [last]) ==
      if last.album.name in AlbumNames(init) then UniqueByAlbum(init) else UniqueByAlbum(init) + [last]
  {
    var s := init + [last];
    assert s[..|s| - 1] == init && s[|s| - 1] == last;
  }

  /**
   * Re-filtering the running accumulator after appending a page gives the
   * same as filtering everything fetched so far.
   */
  lemma {:induction false} UniqueAppend(a: seq<Track>, b: seq<Track>)
    ensures UniqueByAlbum(UniqueByAlbum(a) + b) == UniqueByAlbum(a + b)
    decreases |b|
  {
    if b == [] {
      assert a + b == a && UniqueByAlbum(a) + b == UniqueByAlbum(a);
      UniqueIdempotent(a);
    } else {
      var b', last := b[..|b| - 1], b[|b| - 1];
      var u := UniqueByAlbum(a);
      UniqueAppend(a, b');
      SeqSplitLast(b);
      assert u + b == (u + b') + [last] && a + b == (a + b') + [last];
      UniqueSnoc(u + b', last);
      UniqueSnoc(a + b', last);
      AlbumNamesAppend(u, b');
      AlbumNamesAppend(a, b');
      UniqueKeepsAlbumNames(a);
    }
  }

  /** Filtering never adds tracks: the output is at most as long as the input. */
  lemma {:induction false} UniqueShortens(s: seq<Track>)
    ensures |UniqueByAlbum(s)| <= |s|
  {
    if s != [] {
      UniqueShortens(s[..|s| - 1]);
    }
  }

  /** filterUniqueTracks: a Set of seen album names, updated while filtering. */
  method FilterUniqueTracks(tracks: seq<Track>) returns (unique: seq<Track>)
    ensures unique == UniqueByAlbum(tracks)
  {
    var seen: set<string> := {};
    unique := [];
    var i := 0;
    while i < |tracks|
      invariant 0 <= i <= |tracks|
      invariant seen == AlbumNames(tracks[..i])
      invariant unique == UniqueByAlbum(tracks[..i])
    {
      var track := tracks[i];
      var isUnique := track.album.name !in seen;
      assert tracks[..i + 1][..i] == tracks[..i];
      SplitLast(tracks[..i + 1]);
      if isUnique {
        seen := seen + {track.album.name};
        unique := unique + [track];
      }
      i := i + 1;
    }
    assert tracks[..|tracks|] == tracks;
  }

  // ---------------------------------------------------------------------
  // getTopTracks: paginate until there is no next page or enough tracks.
  // ---------------------------------------------------------------------

  datatype Page = Page(items: seq<Track>, hasNext: bool)

  /** One call to the track proxy: a parsed page, or a failure (non-ok status, fetch or parse error). */
  datatype Fetch = Fetched(page: Page) | Failed

  /**
   * The answer to the n-th request. Past the given sequence the upstream
   * answers with an empty last page.
   */
  function PageAt(pages: seq<Fetch>, n: nat): Fetch {
    if n < |pages| then pages[n] else Fetched(Page([], false))
  }

  function ItemsOf(f: Fetch): seq<Track> {
    if f.Fetched? then f.page.items else []
  }

  /** The items of the first n pages, in fetch order. */
  function Concat(pages: seq<Fetch>, n: nat): seq<Track> {
    if n == 0 then [] else Concat(pages, n - 1) + ItemsOf(PageAt(pages, n - 1))
  }

  /** The accumulator after n pages. */
  function Accumulated(pages: seq<Fetch>, n: nat, uniqueTracksOnly: bool): seq<Track> {
    if uniqueTracksOnly then UniqueByAlbum(Concat(pages, n)) else Concat(pages, n)
  }

  /** After the n-th page (n >= 1) getTopTracks asks for another one. */
  predicate Continues(pages: seq<Fetch>, n: nat, uniqueTracksOnly: bool, trackLimit: int)
    requires n >= 1
  {
    && PageAt(pages, n - 1).Fetched?
    && PageAt(pages, n - 1).page.hasNext
    && |Accumulated(pages, n, uniqueTracksOnly)| < trackLimit
  }

  /**
   * getTopTracks as the code writes it: a recursive call per page with the
   * accumulator. The result is the track list (None after a failure) and the
   * number of pages requested.
   */
  function FetchFrom(pages: seq<Fetch>, n: nat, acc: seq<Track>, uniqueTracksOnly: bool, trackLimit: int)
    : (r: (Option<seq<Track>>, nat))
    requires n <= |pages|
    ensures n < r.1 <= |pages| + 1
    decreases |pages| - n
  {
    match PageAt(pages, n)
    case Failed => (None, n + 1)
    case Fetched(page) =>
      var acc' := if uniqueTracksOnly then UniqueByAlbum(acc + page.items) else acc + page.items;
      if page.hasNext && |acc'| < trackLimit then FetchFrom(pages, n + 1, acc', uniqueTracksOnly, trackLimit)
      else (Some(acc'), n + 1)
  }

  function TopTracks(pages: seq<Fetch>, uniqueTracksOnly: bool, trackLimit: int): (r: (Option<seq<Track>>, nat))
    ensures 1 <= r.1 <= |pages| + 1
  {
    FetchFrom(pages, 0, [], uniqueTracksOnly, trackLimit)
  }

  lemma AccumulatedStep(pages: seq<Fetch>, n: nat, uniqueTracksOnly: bool)
    requires PageAt(pages, n).Fetched?
    ensures Accumulated(pages, n + 1, uniqueTracksOnly) ==
      if uniqueTracksOnly then UniqueByAlbum(Accumulated(pages, n, uniqueTracksOnly) + PageAt(pages, n).page.items)
      else Accumulated(pages, n, uniqueTracksOnly) + PageAt(pages, n).page.items
  {
    if uniqueTracksOnly {
      UniqueAppend(Concat(pages, n), PageAt(pages, n).page.items);
    }
  }

  /** Pages 1..k-1 continued the recursion and page k stopped it. */
  predicate StopsAt(pages: seq<Fetch>, uniqueTracksOnly: bool, trackLimit: int, k: nat)
    requires k >= 1
  {
    && (forall m :: 1 <= m < k ==> Continues(pages, m, uniqueTracksOnly, trackLimit))
    && !Continues(pages, k, uniqueTracksOnly, trackLimit)
  }

  /** The result after k pages: nothing if the last request failed, else the accumulator. */
  function ResultAfter(pages: seq<Fetch>, uniqueTracksOnly: bool, k: nat): Option<seq<Track>>
    requires k >= 1
  {
    if PageAt(pages, k - 1).Failed? then None else Some(Accumulated(pages, k, uniqueTracksOnly))
  }

  lemma {:induction false} FetchFromFacts(pages: seq<Fetch>, n: nat, uniqueTracksOnly: bool, trackLimit: int)
    requires n <= |pages|
    requires forall m :: 1 <= m <= n ==> Continues(pages, m, uniqueTracksOnly, trackLimit)
    ensures var h := FetchFrom(pages, n, Accumulated(pages, n, uniqueTracksOnly), uniqueTracksOnly, trackLimit);
      && StopsAt(pages, uniqueTracksOnly, trackLimit, h.1)
      && h.0 == ResultAfter(pages, uniqueTracksOnly, h.1)
    decreases |pages| - n
  {
    var acc := Accumulated(pages, n, uniqueTracksOnly);
    var h := FetchFrom(pages, n, acc, uniqueTracksOnly, trackLimit);
    if PageAt(pages, n).Failed? {
      assert h == (None, n + 1);
      assert !Continues(pages, n + 1, uniqueTracksOnly, trackLimit);
      assert StopsAt(pages, uniqueTracksOnly, trackLimit, n + 1);
    } else {
      var page := PageAt(pages, n).page;
      AccumulatedStep(pages, n, uniqueTracksOnly);
      var next := Accumulated(pages, n + 1, uniqueTracksOnly);
      if page.hasNext && |next| < trackLimit {
        assert Continues(pages, n + 1, uniqueTracksOnly, trackLimit);
        assert h == FetchFrom(pages, n + 1, next, uniqueTracksOnly, trackLimit);
        FetchFromFacts(pages, n + 1, uniqueTracksOnly, trackLimit);
      } else {
        assert h == (Some(next), n + 1);
        assert !Continues(pages, n + 1, uniqueTracksOnly, trackLimit);
        assert StopsAt(pages, uniqueTracksOnly, trackLimit, n + 1);
      }
    }
  }

  /**
   * What getTopTracks returns, in terms of the pages: it requests pages
   * 0..k-1, every page before the last one continued the recursion, the
   * last one stopped it, and the result is the accumulator of all k pages,
   * or nothing when the last request failed.
   */
  lemma TopTracksFacts(pages: seq<Fetch>, uniqueTracksOnly: bool, trackLimit: int)
    ensures var h := TopTracks(pages, uniqueTracksOnly, trackLimit);
      && StopsAt(pages, uniqueTracksOnly, trackLimit, h.1)
      && h.0 == ResultAfter(pages, uniqueTracksOnly, h.1)
  {
    assert Accumulated(pages, 0, uniqueTracksOnly) == [];
    FetchFromFacts(pages, 0, uniqueTracksOnly, trackLimit);
  }

  /** One page adds at most its own items to the accumulator. */
  lemma AccumulatedGrowth(pages: seq<Fetch>, n: nat, uniqueTracksOnly: bool)
    requires PageAt(pages, n).Fetched?
    ensures |Accumulated(pages, n + 1, uniqueTracksOnly)| <=
            |Accumulated(pages, n, uniqueTracksOnly)| + |ItemsOf(PageAt(pages, n))|
  {
    AccumulatedStep(pages, n, uniqueTracksOnly);
    if uniqueTracksOnly {
      UniqueShortens(Accumulated(pages, n, uniqueTracksOnly) + PageAt(pages, n).page.items);
    }
  }

  /**
   * The result is not truncated: it may pass the limit, but by less than
   * the last page's items.
   */
  lemma TopTracksOvershoot(pages: seq<Fetch>, uniqueTracksOnly: bool, trackLimit: int)
    requires trackLimit > 0
    ensures var h := TopTracks(pages, uniqueTracksOnly, trackLimit);
      h.0.Some? ==> |h.0.value| < trackLimit + |ItemsOf(PageAt(pages, h.1 - 1))|
  {
    TopTracksFacts(pages, uniqueTracksOnly, trackLimit);
    var h := TopTracks(pages, uniqueTracksOnly, trackLimit);
    var k := h.1;
    if h.0.Some? {
      assert PageAt(pages, k - 1).Fetched? && h.0.value == Accumulated(pages, k, uniqueTracksOnly);
      AccumulatedGrowth(pages, k - 1, uniqueTracksOnly);
      if k > 1 {
        assert Continues(pages, k - 1, uniqueTracksOnly, trackLimit);
      } else {
        assert Accumulated(pages, 0, uniqueTracksOnly) == [];
      }
    }
  }

  /** With a limit of 9, one page of twelve tracks that has a next page yields all twelve. */
  lemma OnePageIsNotTruncated(t: Track)
    ensures var page := Fetched(Page([t, t, t, t, t, t, t, t, t, t, t, t], true));
      TopTracks([page], false, 9) == (Some(page.page.items), 1)
  {
    var items := [t, t, t, t, t, t, t, t, t, t, t, t];
    assert [] + items == items;
  }

  /**
   * getTopTracks as a loop over pages. Returns the track list (None after a
   * failed request) and the offsets requested, in order.
   */
  method GetTopTracks(pages: seq<Fetch>, uniqueTracksOnly: bool, trackLimit: int)
    returns (tracks: Option<seq<Track>>, offsets: seq<nat>)
    ensures (tracks, |offsets|) == TopTracks(pages, uniqueTracksOnly, trackLimit)
    ensures 1 <= |offsets| <= |pages| + 1
    ensures forall j :: 0 <= j < |offsets| ==> offsets[j] == PageLimit * j
    ensures forall m :: 1 <= m < |offsets| ==> Continues(pages, m, uniqueTracksOnly, trackLimit)
    ensures !Continues(pages, |offsets|, uniqueTracksOnly, trackLimit)
    ensures tracks == if PageAt(pages, |offsets| - 1).Failed? then None
                      else Some(Accumulated(pages, |offsets|, uniqueTracksOnly))
  {
    var acc: seq<Track> := [];
    var offset: nat := 0;
    offsets := [];
    tracks := None;
    var done := false;
    while !done
      invariant |offsets| <= |pages| + 1
      invariant forall j :: 0 <= j < |offsets| ==> offsets[j] == PageLimit * j
      invariant !done ==> offset == PageLimit * |offsets|
      invariant !done ==> |offsets| <= |pages|
      invariant !done ==> FetchFrom(pages, |offsets|, acc, uniqueTracksOnly, trackLimit) == TopTracks(pages, uniqueTracksOnly, trackLimit)
      invariant done ==> (tracks, |offsets|) == TopTracks(pages, uniqueTracksOnly, trackLimit)
      decreases |pages| + 1 - |offsets|, !done
    {
      var response := PageAt(pages, |offsets|);
      offsets := offsets + [offset];
      match response {
        case Failed =>
          tracks := None;
          done := true;
        case Fetched(page) =>
          acc := acc + page.items;
          if uniqueTracksOnly {
            acc := FilterUniqueTracks(acc);
          }
          if page.hasNext && |acc| < trackLimit {
            offset := offset + PageLimit;
          } else {
            tracks := Some(acc);
            done := true;
          }
      }
    }
    TopTracksFacts(pages, uniqueTracksOnly, trackLimit);
  }

  // ---------------------------------------------------------------------
  // getTrackImages and createCollage.
  // ---------------------------------------------------------------------

  predicate AllHaveImages(tracks: seq<Track>) {
    forall i :: 0 <= i < |tracks| ==> |tracks[i].album.images| > 0
  }

  /** The URL of each track's first (largest) album image, in track order. */
  function FirstImageUrls(tracks: seq<Track>): (urls: seq<string>)
    requires AllHaveImages(tracks)
    ensures |urls| == |tracks|
    ensures forall i :: 0 <= i < |tracks| ==> urls[i] == tracks[i].album.images[0].url
  {
    if tracks == [] then []
    else FirstImageUrls(tracks[..|tracks| - 1]) + [tracks[|tracks| - 1].album.images[0].url]
  }

  /**
   * getTrackImages: one push per track. A track without images makes
   * `images[0].url` throw, which is the None result.
   */
  method GetTrackImages(tracks: seq<Track>) returns (images: Option<seq<string>>)
    ensures images.Some? <==> AllHaveImages(tracks)
    ensures images.Some? ==> images.value == FirstImageUrls(tracks)
  {
    var urls: seq<string> := [];
    var i := 0;
    while i < |tracks|
      invariant 0 <= i <= |tracks|
      invariant AllHaveImages(tracks[..i])
      invariant urls == FirstImageUrls(tracks[..i])
    {
      if |tracks[i].album.images| == 0 {
        return None;
      }
      assert tracks[..i + 1][..i] == tracks[..i];
      urls := urls + [tracks[i].album.images[0].url];
      i := i + 1;
    }
    assert tracks[..i] == tracks;
    images := Some(urls);
  }

  /** The source of grid cell i: `images[i] || "/images/default-cover.jpg"`. */
  function CellSource(images: seq<string>, i: nat): (src: string)
    ensures src != ""
    ensures src == DefaultCover || (i < |images| && src == images[i])
    ensures i < |images| && images[i] != "" ==> src == images[i]
  {
    if i < |images| && images[i] != "" then images[i] else DefaultCover
  }

  /** createCollage, reduced to the list of cell sources it lays out. */
  method CreateCollage(images: seq<string>, size: nat) returns (cells: seq<string>)
    ensures |cells| == size * size
    ensures forall i :: 0 <= i < |cells| ==> cells[i] == CellSource(images, i)
    ensures forall i :: 0 <= i < |cells| && i < |images| && images[i] != "" ==> cells[i] == images[i]
    ensures forall i :: |images| <= i < |cells| ==> cells[i] == DefaultCover
  {
    var collageLength := size * size;
    cells := [];
    var i := 0;
    while i < collageLength
      invariant 0 <= i <= collageLength
      invariant |cells| == i
      invariant forall k :: 0 <= k < i ==> cells[k] == CellSource(images, k)
    {
      var src := if i < |images| && images[i] != "" then images[i] else DefaultCover;
      cells := cells + [src];
      i := i + 1;
    }
  }

  // ---------------------------------------------------------------------
  // generateSpotifyCollage: the guard around the pipeline.
  // ---------------------------------------------------------------------

  /** What sortTracks leaves in the array for a known key. */
  function SortedFor(key: SortKey, tracks: seq<Track>): seq<Track> {
    if key == MostPlayed then tracks else InsertionSort(key, tracks)
  }

  /**
   * Runs the pipeline for a size x size grid. Returns the grid's cell
   * sources, or None when nothing is rendered: the fetch failed, no track
   * came back, the sort key is unknown, or a track has no image.
   */
  method GenerateSpotifyCollage(pages: seq<Fetch>, size: nat, sortBy: string, uniqueTracksOnly: bool)
    returns (cells: Option<seq<string>>)
    ensures var fetched := TopTracks(pages, uniqueTracksOnly, size * size).0;
      cells.Some? <==>
        && fetched.Some? && |fetched.value| > 0
        && ParseSortKey(sortBy).Some?
        && AllHaveImages(SortedFor(ParseSortKey(sortBy).value, fetched.value))
    ensures cells.Some? ==>
      var sorted := SortedFor(ParseSortKey(sortBy).value, TopTracks(pages, uniqueTracksOnly, size * size).0.value);
      && |cells.value| == size * size
      && forall i :: 0 <= i < size * size ==> cells.value[i] == CellSource(FirstImageUrls(sorted), i)
  {
    var trackLimit := size * size;
    var tracks, _ := GetTopTracks(pages, uniqueTracksOnly, trackLimit);
    if tracks.None? || |tracks.value| == 0 {
      return None;
    }
    var arr := new Track[|tracks.value|](i requires 0 <= i < |tracks.value| => tracks.value[i]);
    assert arr[..] == tracks.value;
    var returned := SortTracks(arr, sortBy);
    if !returned {
      return None;
    }
    var images := GetTrackImages(arr[..]);
    if images.None? {
      return None;
    }
    var grid := CreateCollage(images.value, size);
    cells := Some(grid);
  }
}
