# Collageify in Dafny

Collageify turns a Spotify user's top tracks into a square grid of album covers. This project models the three pieces of logic behind it, and proves properties of each.

- **The collage pipeline** (`public/js/create_collage.js`). This is module `Collage`, with `Tracks` for the sort.
  - Tracks are fetched page by page, 50 per page, until the upstream reports no further page or `size*size` tracks have been gathered.
  - When asked to, the pipeline keeps only the first track of each album.
  - It sorts by popularity, release date, the track's name, or not at all.
  - It takes each track's first album image and lays out exactly `size*size` cells. A missing or empty image becomes a placeholder cover.
- **The selection widget `MultiSelect`** (`public/js/components/multiselect/multi_select.js`). This is module `MultiSelectWidget`, a class holding the widget's private state:
  - the mode;
  - the items;
  - `selectedIndex` and `selectedIndeces`;
  - the rendered buttons, each with a "selected" flag;
  - the events dispatched so far.

  The setters report their errors as an `Outcome` instead of throwing.
- **The server's request decisions** (`index.js`). This is module `Server`. Each route is a function from a request and the upstream's reply to a `Handled` record. The record holds:
  - the upstream call the handler makes, if any;
  - the status;
  - the cookie operations, in order;
  - the body.

  A cookie jar (`ApplyCookies`) applies the cookie operations, so routes can be chained the way a browser chains them. The state check follows the authorization-code flow of section 4.1 and section 10.12 of RFC 6749.

Supporting modules:
- `Wrappers`: `Option` and `Outcome`.
- `Sequences`: splitting a sequence at its ends, for any element type.
- `Strings`:
  - the decimal rendering used in button ids;
  - a code-point lexicographic order that stands in for `localeCompare`;
  - lower-case hex.
- `Encoding`: UTF-8 and base64 (section 4 of RFC 4648). These are used for the HTTP Basic credentials of section 2 of RFC 7617.

Decoders exist only so that the encoders can be proved invertible.

The network, the DOM, the clock and random bytes are inputs:
- the pages the tracks API would return;
- the upstream reply;
- the 16 random bytes of `/login`;
- the environment map.

Where the code departs from what a reader might expect, the model follows the code:
- **No truncation.** A `size`×`size` grid might be expected to fetch exactly `size*size` tracks. The code at `create_collage.js:207-214` does not truncate: it keeps the whole last page. `Collage.OnePageIsNotTruncated` shows one page of 12 tracks kept whole under a limit of 9, and `Collage.TopTracksOvershoot` bounds the overshoot.
- **Token lifetime.** The token cookie's comment says 5 minutes. The value at `index.js:87` is `30*60*1000` ms, and `Server.TokenMaxAge` uses the value.
- **`album_name` sort key.** It compares the tracks' own `name`, not the album name, as `create_collage.js:243` does.

## Model

| member | source | states |
|---|---|---|
| Strings.NatToString | public/js/components/multiselect/multi_select.js:155 | the index written into a button id is a non-empty string of decimal digits |
| Strings.ParseNatToString | public/js/components/multiselect/multi_select.js:155 | reading the decimal digits back gives the index again |
| Strings.NatToStringInjective | public/js/components/multiselect/multi_select.js:155 | different indices are written differently |
| Strings.LocaleCompare | public/js/create_collage.js:243 | the comparison is negative exactly when a precedes b, zero exactly when they are equal, positive exactly when b precedes a |
| Strings.LexLessIrreflexive | public/js/create_collage.js:243 | no name precedes itself |
| Strings.LexLessAsymmetric | public/js/create_collage.js:243 | two names never precede each other |
| Strings.LexLessTransitive | public/js/create_collage.js:243 | precedence among names is transitive |
| Strings.LexLessTotal | public/js/create_collage.js:243 | any two different names are ordered one way or the other |
| Strings.HexValue | index.js:170 | a character has a hex value exactly when it is one of `0-9a-f`, and the value maps back to that character |
| Strings.HexValueOfHexChar | index.js:170 | each of the sixteen digits reads back as its own value |
| Strings.HexEncode | index.js:170 | `toString('hex')` gives two characters per byte |
| Strings.HexEncodeAt | index.js:170 | character 2i is the high nibble of byte i and character 2i+1 its low nibble |
| Strings.HexRoundTrip | index.js:170 | decoding the hex text gives back exactly the bytes |
| Encoding.Utf8EncodeChar | index.js:78 | each character takes one to four bytes, and one byte exactly when it is ASCII |
| Encoding.Utf8Encode | index.js:78 | the encoding of a string is between one and four bytes per character |
| Encoding.Utf8CharRoundTrip | index.js:78 | decoding the bytes of one character, whatever follows them, gives that character and its byte count |
| Encoding.Utf8RoundTrip | index.js:78 | decoding the UTF-8 of `client_id:secret` gives the string back |
| Encoding.Utf8OfAscii | index.js:78 | an ASCII string encodes as one byte per character, equal to its code |
| Encoding.SextetRoundTrip | index.js:78 | each of the 64 base64 characters reads back as its own value |
| Encoding.EncodeGroup | index.js:78 | three bytes become four base64 characters |
| Encoding.Base64Encode | index.js:78 | `toString('base64')` gives whole four-character groups, and empty text exactly for no bytes; `Encoding.Base64Length` gives the exact length and `Encoding.Base64RoundTrip` the inverse |
| Encoding.Base64Length | index.js:78 | the base64 text has 4·⌈n/3⌉ characters, padding included |
| Encoding.OneByteRoundTrip | index.js:78 | a final single byte (two characters and `==`) decodes back to itself |
| Encoding.TwoByteRoundTrip | index.js:78 | a final pair of bytes (three characters and `=`) decodes back to itself |
| Encoding.ThreeByteQuad | index.js:78 | four characters of a full group decode to its three bytes |
| Encoding.GroupRoundTrip | index.js:78 | when the rest round-trips, so does the text with one more leading group |
| Encoding.Base64RoundTrip | index.js:78 | decoding the base64 text gives back exactly the bytes |
| Tracks.Comparator | public/js/create_collage.js:237-243 | under `popularity` a track sorts first exactly when it is more popular, under `release_date` exactly when it is newer, under `album_name` exactly when its own track name comes first (equal names tie), and `most_played` ties everything |
| Tracks.ParseSortKey | public/js/create_collage.js:235-247 | exactly the four strings `popularity`, `release_date`, `album_name` and `most_played` select a key, each its own |
| Tracks.PrecedesIrreflexive | public/js/create_collage.js:237-243 | no track sorts before itself under any key |
| Tracks.PrecedesTiesAreEqualKeys | public/js/create_collage.js:237-243 | two tracks are tied under a key exactly when they read the same key value |
| Tracks.PrecedesAsymmetric | public/js/create_collage.js:237-243 | two tracks never sort before each other |
| Tracks.NotPrecedesTransitive | public/js/create_collage.js:237-243 | "not before" is transitive, so each comparator is a strict weak order that `Array.prototype.sort` can use |
| Tracks.Insert | public/js/create_collage.js:237-243 | inserting a track lengthens the sequence by one |
| Tracks.InsertPermutes | public/js/create_collage.js:237-243 | inserting adds exactly that track to the multiset |
| Tracks.InsertionSort | public/js/create_collage.js:237-243 | sorting keeps the length |
| Tracks.SortPermutes | public/js/create_collage.js:237-243 | the sorted tracks are a permutation of the input |
| Tracks.InsertSorted | public/js/create_collage.js:237-243 | inserting into a sorted sequence keeps it sorted |
| Tracks.SortSorts | public/js/create_collage.js:237-243 | the result is ordered: no track sorts strictly before an earlier one |
| Tracks.SortedMeaning | public/js/create_collage.js:237-243 | in a sorted result, popularity and release date are non-increasing, and track names do not decrease under `album_name` |
| Tracks.InsertStable | public/js/create_collage.js:237-243 | inserting a track keeps the input order among tracks with equal keys |
| Tracks.SortStable | public/js/create_collage.js:237-243 | for every key value, the tracks with that value keep their input order (the sort is stable) |
| Tracks.SortPrefixStep | public/js/create_collage.js:237-243 | sorting one more element inserts it into the sorted prefix |
| Tracks.InsertAsSplice | public/js/create_collage.js:237-243 | insertion places the track after every track it does not precede and before the run it precedes |
| Tracks.SortTracks | public/js/create_collage.js:234-248 | an unknown key gives no array; `most_played` leaves the array unchanged; any other key sorts it in place into the stable sort of its old contents |
| Tracks.StableSortInPlace | public/js/create_collage.js:237-243 | the array ends up holding the stable sort of its old contents |
| Tracks.SortStep | public/js/create_collage.js:237-243 | inserting the next element extends the sorted prefix by one and leaves the rest unchanged |
| Tracks.InsertAt | public/js/create_collage.js:237-243 | one pass moves element i into the sorted prefix before it and leaves the suffix alone |
| Collage.UniqueByAlbum | public/js/create_collage.js:225-232 | the filter keeps only input tracks, and a non-empty input keeps at least its first track |
| Collage.UniqueSnoc | public/js/create_collage.js:227-231 | one more track at the end is kept exactly when its album name is new |
| Collage.UniqueKeepsAlbumNames | public/js/create_collage.js:225-232 | every album name of the input appears in the filtered tracks, and no other |
| Collage.UniqueHasDistinctAlbums | public/js/create_collage.js:225-232 | the filtered tracks have pairwise distinct album names |
| Collage.UniqueIsSubsequence | public/js/create_collage.js:225-232 | the filtered tracks are an order-preserving subsequence of the input |
| Collage.UniqueKeepsFirstOccurrences | public/js/create_collage.js:225-232 | the first track of each album is kept |
| Collage.UniqueKeepsOnlyFirstOccurrences | public/js/create_collage.js:225-232 | every kept track is the first of its album in the input |
| Collage.UniqueOfDistinct | public/js/create_collage.js:225-232 | tracks that already have distinct album names pass unchanged |
| Collage.UniqueIdempotent | public/js/create_collage.js:225-232 | filtering twice is filtering once |
| Collage.UniqueAppend | public/js/create_collage.js:202-205 | filtering the filtered accumulator plus a page equals filtering the whole concatenation |
| Collage.UniqueShortens | public/js/create_collage.js:225-232 | filtering never adds tracks |
| Collage.FilterUniqueTracks | public/js/create_collage.js:225-232 | the loop with its `seen` set computes the first-per-album filter |
| Collage.FetchFrom | public/js/create_collage.js:207-211 | a call that fetches page n ends at a later page, at most one past the last page given |
| Collage.TopTracks | public/js/create_collage.js:57-64 | the fetch starts at page 0 and stops after at least one page, and at most one page past those given |
| Collage.AccumulatedStep | public/js/create_collage.js:202-205 | one fetched page appends its items to the accumulator, re-filtered when unique tracks are asked for |
| Collage.FetchFromFacts | public/js/create_collage.js:207-214 | from page n on, the recursion stops at the first page after which it does not continue, with that accumulator or nothing if that page failed |
| Collage.TopTracksFacts | public/js/create_collage.js:191-223 | the fetch continues past every page before the stop, and not past the stop. The result is nothing when the last page failed, else the concatenation of all fetched items, first-per-album filtered when asked for |
| Collage.AccumulatedGrowth | public/js/create_collage.js:202-205 | one page adds at most its own items to the accumulator |
| Collage.TopTracksOvershoot | public/js/create_collage.js:207-214 | the result is not truncated: it exceeds the limit by less than the last page's item count |
| Collage.OnePageIsNotTruncated | public/js/create_collage.js:207-214 | one page of 12 tracks under a limit of 9 is returned whole |
| Collage.GetTopTracks | public/js/create_collage.js:191-223 | the loop requests offsets 0, 50, 100, … in order. It continues exactly while the last page was fetched, reports a next page and the accumulator is below the limit. It returns nothing after a failed page, else the accumulated tracks |
| Collage.FirstImageUrls | public/js/create_collage.js:250-256 | one URL per track, in track order, the i-th being the first image of track i's album |
| Collage.GetTrackImages | public/js/create_collage.js:250-256 | gives the image URLs exactly when every track has an image, and those URLs are the first image of each track in order |
| Collage.CellSource | public/js/create_collage.js:180 | every cell gets a non-empty source; it is image i when that exists and is non-empty, otherwise the default cover |
| Collage.CreateCollage | public/js/create_collage.js:164-188 | exactly size·size cells. Cell i is image i when it exists and is non-empty, else the default cover. Images beyond the grid are ignored |
| Collage.GenerateSpotifyCollage | public/js/create_collage.js:52-73 | a grid is rendered exactly when the fetch gave a non-empty list, the sort key is known and every sorted track has an image. The grid is size·size cells of the sorted tracks' first images |
| MultiSelectWidget.ButtonId | public/js/components/multiselect/multi_select.js:155 | a button id starts with `btn` and ends with `_` followed by the label |
| MultiSelectWidget.ButtonIdInjective | public/js/components/multiselect/multi_select.js:155 | the id `btn{index}_{label}` determines both the index and the label |
| MultiSelectWidget.RenderButtons | public/js/components/multiselect/multi_select.js:151-161 | one button per item |
| MultiSelectWidget.RenderedIdsDistinct | public/js/components/multiselect/multi_select.js:154-158 | buttons rendered in one pass have pairwise distinct ids |
| MultiSelectWidget.Toggle | public/js/components/multiselect/multi_select.js:209-211 | toggling keeps the number of buttons |
| MultiSelectWidget.SelectOnly | public/js/components/multiselect/multi_select.js:217-223 | single selection keeps the number of buttons |
| MultiSelectWidget.SelectOnlyIsExclusive | public/js/components/multiselect/multi_select.js:217-223 | after a single selection exactly that button is flagged, and nothing but flags changed |
| MultiSelectWidget.SelectOnlyOfExclusive | public/js/components/multiselect/multi_select.js:187-191 | selecting the one button already selected changes nothing |
| MultiSelectWidget.ToggleTwice | public/js/components/multiselect/multi_select.js:209-211 | toggling a button twice restores the buttons |
| MultiSelectWidget.ToggleAll | public/js/components/multiselect/multi_select.js:121-129 | toggling the listed indices keeps the number of buttons |
| MultiSelectWidget.ToggleAllFlags | public/js/components/multiselect/multi_select.js:121-129 | a button ends flagged exactly when its index is listed an odd number of times (out-of-range indices are ignored), and nothing but flags changes |
| MultiSelectWidget.IndexOf | public/js/components/multiselect/multi_select.js:181 | `indexOf` is -1 exactly when the value is absent, else the position of its first occurrence |
| MultiSelectWidget.ToggleMember | public/js/components/multiselect/multi_select.js:181-186 | a listed index has its first occurrence spliced out, and the other indices keep their order; an unlisted one is appended |
| MultiSelectWidget.ToggleMemberTwice | public/js/components/multiselect/multi_select.js:178-186 | clicking an index twice restores the multiset of selected indices, and the list itself when it was unlisted |
| MultiSelectWidget.ToggleMemberTwiceWithDuplicate | public/js/components/multiselect/multi_select.js:181-186 | with the index listed twice, two clicks remove both occurrences instead of restoring the list |
| MultiSelectWidget.MultiSelect.constructor | public/js/components/multiselect/multi_select.js:27-44 | every option not given takes its default (multi mode, no items, `[0]`, `0`), and the widget starts with no buttons |
| MultiSelectWidget.MultiSelect.SetSelectedIndex | public/js/components/multiselect/multi_select.js:63-68 | fails in multi mode, then fails out of bounds. Otherwise it sets only `selectedIndex`. Nothing else changes, including the flags |
| MultiSelectWidget.MultiSelect.SetSelectedIndeces | public/js/components/multiselect/multi_select.js:74-78 | fails in single mode, otherwise replaces the list wholesale without validation; nothing else changes |
| MultiSelectWidget.MultiSelect.SetIsMultiSelect | public/js/components/multiselect/multi_select.js:84-86 | sets only the mode |
| MultiSelectWidget.MultiSelect.SetItems | public/js/components/multiselect/multi_select.js:92-94 | replaces the items without re-rendering buttons |
| MultiSelectWidget.MultiSelect.RenderItems | public/js/components/multiselect/multi_select.js:151-161 | appends one button per item in item order; nothing else changes |
| MultiSelectWidget.MultiSelect.ToggleMultiSelection | public/js/components/multiselect/multi_select.js:209-211 | flips only that button's flag |
| MultiSelectWidget.MultiSelect.ToggleSingleSelection | public/js/components/multiselect/multi_select.js:217-223 | clears every flag, then flags that button |
| MultiSelectWidget.MultiSelect.InitialFlags | public/js/components/multiselect/multi_select.js:118-138 | initial flagging keeps the number of buttons |
| MultiSelectWidget.MultiSelect.Init | public/js/components/multiselect/multi_select.js:118-138 | renders the items, then flags the `selectedIndex` button in single mode, or toggles each listed in-range index in multi mode |
| MultiSelectWidget.MultiSelect.InitializeMultiselect | public/js/components/multiselect/multi_select.js:101-111 | initializes, then dispatches `onLoad` once. On a first initialization in single mode with an in-range index, exactly that button is flagged; in multi mode, flags follow the parity of the listed indices |
| MultiSelectWidget.MultiSelect.Click | public/js/components/multiselect/multi_select.js:177-199 | multi mode toggles the flag and the index's membership. Single mode flags only this button and sets `selectedIndex`. Either way one `onSelectedIndexChanged` is dispatched, and single-mode exclusivity is preserved |
| MultiSelectWidget.RepeatedSingleClick | public/js/components/multiselect/multi_select.js:187-198 | clicking one button twice in single mode leaves the state of one click: the buttons, `selectedIndex`, the mode, the items and `selectedIndeces`. It keeps the earlier events and dispatches two identical `onSelectedIndexChanged` events carrying that state |
| Server.OrDefault | index.js:143-145 | a parameter that is absent or empty takes the default, otherwise it is used as given |
| Server.LoadConfig | index.js:28-31 | `APP_NAME` and `BASE_URL` fall back to their defaults when unset or empty; the client id and secret are read as given |
| Server.RedirectUri | index.js:30 | `REDIRECT_URI` is the base URL followed by `/callback` |
| Server.HexEncodeNibbles | index.js:170 | hex character i is the i-th nibble of the bytes |
| Server.GenerateRandomString | index.js:169-171 | exactly n characters, each in `[0-9a-f]`, the i-th being the i-th nibble of the random bytes |
| Server.FirstWord | index.js:176 | the prefix up to the first space, which contains no space |
| Server.GetUserFirstName | index.js:173-178 | empty for an absent or empty name, otherwise the prefix before the first space (the whole name when it has none) |
| Server.SplitCredentials | index.js:78 | splitting at the first colon gives the parts around it |
| Server.SplitAtFirstColon | index.js:78 | a user-id without a colon splits off exactly |
| Server.BasicCredentialsRoundTrip | index.js:78 | the Authorization header is `Basic ` followed by base64. It decodes to `client_id:secret`, which splits back into the id and the secret |
| Server.BasicAuthorization | index.js:78 | the Authorization header starts with `Basic ` (its round trip is `Server.BasicCredentialsRoundTrip`) |
| Server.HasToken | index.js:99 | the token guard (also used at line 137) passes exactly when the cookie is truthy: present and not empty |
| Server.Login | index.js:37-53 | sets the `spotify-state` cookie to the generated state and redirects to the authorize endpoint with `response_type=code`, the client id, the scope, `BASE_URL/callback` and that same state |
| Server.StateAccepted | index.js:57-59 | the state check passes exactly when the cookie and the query `state` are both present, non-empty and equal. A missing cookie never matches |
| Server.Callback | index.js:55-94 | a failed state check answers 403 with no call and no cookie change. Otherwise it clears the state, then exchanges the code with Basic auth. Only a no-error 200 sets the token cookie (30 minutes, httpOnly, secure) and redirects to `/create`; anything else sends the fixed error text |
| Server.CodeOf | index.js:56 | the code is passed on exactly when the query has a non-empty `code`, and then as given |
| Server.Create | index.js:96-123 | without a token, redirects to `/` with no upstream call. Otherwise it queries the profile with the bearer token, then renders with the first name or answers 400 |
| Server.Logout | index.js:125-132 | only clears the token cookie, and redirects to `/` |
| Server.LogoutClearsOnlyToken | index.js:129 | after logging out the token is gone and every other cookie is kept |
| Server.TopTracksQuery | index.js:143-150 | each of `time_range`, `offset` and `limit` is the query value when present and non-empty, else `short_term`, `0` and `20` |
| Server.ApiGetTopTracks | index.js:135-166 | without a token, answers `{error: "Token not found"}` with no upstream call. Otherwise it forwards the defaulted query, relays a 200 body verbatim, or answers 400 with the fixed message |
| Server.TopTracksDefaults | index.js:143-150 | with no parameters the query is `time_range=short_term&offset=0&limit=20` |
| Server.LoginThenCallback | index.js:37-61 | a browser that logged in passes the state check with the state in the redirect, and the code is exchanged |
| Server.CallbackIsSingleUse | index.js:59-64 | replaying a callback after the state cookie was cleared is refused as CSRF |
| Server.CallbackThenCreate | index.js:83-107 | after a successful exchange, `/create` calls the profile API with the issued token |
| Server.LogoutThenCreate | index.js:96-132 | after logging out, `/create` redirects to `/` without an upstream call |

## Left out

- DOM work beyond the cell list and the per-button flag is not modelled: elements, CSS class strings, fragments, loaders, the splash screen, image export.
- The `MultiSelect` constructor's lookup of its parent element, and its "Parent element is required" throw, are not modelled. They are DOM work.
- Getters are not separate members. Fields are immutable sequence values, so a returned copy can never change the widget's state.
- `#dispatch` becomes an append of an event record to `dispatched`. Calling the handler is not modelled. The JavaScript payload holds live arrays, which later changes can alter; the model stores a snapshot.
- The `selectedIndeces` setter stores the caller's array itself. Later changes made by the caller are not modelled (aliasing).
- Non-integer indices are not modelled, nor are items without a `label`.
- An item keeps only its `label` (as `caption`). The `value` that callers read from `items[selectedIndex]` is not modelled: the widget itself never reads it.
- Network access is not modelled (`fetch`, `request.get`/`request.post`, the JSON parse). The pages and the upstream replies are inputs.
- `confirm` and the redirect after a failed page are not modelled. A failed page stands for a non-ok status and for a thrown fetch or parse alike.
- The tracks request URL is reduced to its offset. `timeRange` is passed through unchanged and `limit` is the constant 50.
- Pages past the end of the given sequence read as an empty page with no next one. This bound is what makes the fetch terminate. The code has no such bound, so an upstream that keeps reporting a next page while the accumulator stays under the limit is paginated forever. Every page from a single album with `uniqueTracksOnly` set is such an upstream. That non-termination is not modelled.
- `localeCompare` is replaced by code-point lexicographic order, a strict total order. Locale collation is library semantics.
- Release dates are integer keys. `new Date` parsing, and the NaN an unparsable date would give the comparator, are not modelled.
- The console log at `create_collage.js:66` throws when no list came back. The throw itself is not modelled: the model returns nothing, and nothing is rendered either way. The caller's loader then stays visible, which is DOM work.
- `sortTracks` returns `undefined` for an unknown key, and a track without images makes `getTrackImages` throw. Both end with nothing rendered, which the model returns as `None`.
- `size` arrives as a string and is coerced by `size*size`. The model takes a natural number.
- Tracks.StableSortInPlace: fixes insertion sort as the algorithm. `Array.prototype.sort` is only promised to be stable. A stable, sorted permutation under a strict weak order is unique, so any stable sort gives the same result.
- MultiSelectWidget.ToggleMemberTwice: requires the index to be listed at most once. With duplicates, two clicks do not restore the list, as `ToggleMemberTwiceWithDuplicate` shows.
- MultiSelectWidget.MultiSelect.InitializeMultiselect: states exclusivity and flag parity only for a first initialization. A second initialization appends a second set of buttons whose indices repeat, and the model follows that.
- MultiSelectWidget.MultiSelect.Click: preserves single-mode exclusivity only while each item's button was rendered once, for the same reason.
- Express plumbing is not modelled: middleware, static files, the self-signed certificate, `listen`, the serverless wrapper.
- ejs rendering becomes a `Render` record.
- The `URLSearchParams` serialisation of the authorize redirect is not modelled. The redirect is kept as its base URL and an ordered parameter list.
- Express's default cookie attributes are not modelled. The cookie jar does not apply `maxAge` expiry.
- The missing-token answer of `/api/getTopTracks` uses the two-argument `res.json(obj, 400)`. It is modelled as status 400, the behaviour of Express 4.
- Query values that are arrays (repeated parameters) are not modelled. Query values are strings.
- Environment loading becomes a map read once into `Config`. The client secret, which the code reads per request, is taken from the same environment.
- Lone surrogate characters in credentials are not modelled. Dafny characters are Unicode scalar values, and `Buffer` would replace a lone surrogate with U+FFFD.
- `crypto.randomBytes` becomes an input of 16 bytes.
