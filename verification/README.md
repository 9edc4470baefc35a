# NASA Space Explorer: media classification, YouTube links and date ranges

This project is a Dafny model of the logic at the centre of the NASA Space Explorer
gallery (`js/script.js`). The page fetches Astronomy Picture of the Day (APOD)
records for a date range and shows each record as a card and, on click, in a
modal. The model covers:

- **The YouTube URL pattern** (`isYouTubeVideo`, `getYouTubeVideoId`). The
  case-insensitive regular expression is written as a hand-made matcher over
  strings (`YouTubeUrl`). A theorem shows that it returns capture group 1 of the
  match ECMAScript reports: the leftmost start position, and at that start the
  first path backtracking tries. Lemmas in `YouTubeForms` show which id the
  pattern extracts from the `youtu.be/ID`, `youtube.com/watch?v=ID`,
  `youtube.com/embed/ID` and `youtube.com/v/ID` forms, in any letter case.
- **Thumbnail and embed URLs** (`getYouTubeThumbnail`, `getYouTubeEmbedUrl`)
  and **`getMediaInfo`**, together with the choice the card and modal renderers
  make between an image, a YouTube player and another embedded video (`Media`).
- **`validRange`** (`DateRange`). The inputs' values are compared with
  JavaScript's `<=` on strings. On `yyyy-mm-dd` values this is shown to be
  calendar order.
- **Response normalisation** (`Response`). A single record is wrapped in a
  one-element list. The list is then reversed in place by a method proved
  against a pure `Reversed` function.

Two behaviours of the code a reader may not expect:

- `getMediaInfo` computes `isYouTube` from the url alone, without looking at
  `media_type` (`js/script.js:284`). An image record whose url matches the
  pattern therefore has `isImage` and `isYouTube` both set. The renderers still
  show it as an image, because they test `isImage` first (`Media.ImageWithYouTubeUrl`).
- The pattern does not require anything to end the 11-character id. A longer run
  of allowed characters yields its first 11 (`YouTubeForms.ShortForm`,
  `YouTubeForms.WatchForm`).

Files: `wrappers.dfy` (optional values), `text.dfy` (ECMAScript character
classes and ASCII case folding), `youtube_url.dfy`, `youtube_forms.dfy`,
`media.dfy`, `date_range.dfy`, `response.dfy`.

## Model

| member | source | states |
|---|---|---|
| Text.IsLineTerminator | js/script.js:259 | The ECMAScript line terminators (LF, CR, U+2028, U+2029): the characters `.` does not match |
| Text.IsWhitespace | js/script.js:259 | ECMAScript `\s`: the WhiteSpace characters (TAB, VT, FF, ZWNBSP, the space separators) and the line terminators |
| Text.Fold | js/script.js:259 | Under the `i` flag without `u`, an upper-case ASCII letter compares as its lower-case form; every other character compares as itself |
| Text.FoldOnto | js/script.js:259 | A character that folds onto a non-letter is that character; one that folds onto a lower-case letter is that letter or its upper-case form |
| YouTubeUrl.IsIdChar | js/script.js:259 | One character of the class `[^"&?\/\s]` |
| YouTubeUrl.IsVideoId | js/script.js:259 | What `([^"&?\/\s]{11})` can capture: exactly 11 characters of that class |
| YouTubeUrl.LitAt | js/script.js:259 | A lower-case literal of the pattern matches at a position under the `i` flag |
| YouTubeUrl.Prefix | js/script.js:259 | The part of the pattern before the capture group matches at a start along one way through the alternatives |
| YouTubeUrl.Accepts | js/script.js:259 | The whole pattern matches at a start along one way through the alternatives: that prefix, then 11 id characters |
| YouTubeUrl.Precedes | js/script.js:259 | The order backtracking tries paths in: alternatives left to right, and within `[^\/]+\/.+\/` or `.*[?&]v=` the greedy run that reaches further first |
| YouTubeUrl.FirstMatch | js/script.js:259 | The match `exec` reports: a matching path at the leftmost start where any path matches, with no matching path at that start tried before it |
| YouTubeUrl.MatchLong | js/script.js:259 | The `youtube.com/` alternatives tried in the pattern's order: channel run, `v/`, `embed/`, `e/`, query; soundness and priority are `MatchLongSound` and `MatchAtIsFirstPath` |
| YouTubeUrl.MatchAt | js/script.js:259 | The pattern tried at one start: `youtube.com/` first, then `youtu.be/`; soundness and priority are `MatchAtSound` and `MatchAtIsFirstPath` |
| YouTubeUrl.Capture | js/script.js:267 | Capture group 1 is exactly 11 characters, none of them `"`, `&`, `?`, `/` or ECMAScript white space |
| YouTubeUrl.FirstSlash | js/script.js:259 | `[^\/]+` reaches the first `/` at or after a position, or the end when there is none |
| YouTubeUrl.LineEnd | js/script.js:259 | `.` reaches the first line terminator at or after a position, or the end |
| YouTubeUrl.LastAnchor | js/script.js:259 | Greedy backtracking stops at the largest position in a window where the rest of the pattern matches; there is none when every position fails |
| YouTubeUrl.TryChannel | js/script.js:259 | Any slash found for `[^\/]+\/.+\/` ends a run of that shape and is followed by an 11-character id |
| YouTubeUrl.TryQuery | js/script.js:259 | Any mark found for `.*[?&]v=` is a `?` or `&` followed by `v=` (any case) and an id, with no line terminator before it |
| YouTubeUrl.TryChannelComplete | js/script.js:259 | If the channel alternative can end at some slash, the matcher finds that slash or a later one |
| YouTubeUrl.TryQueryComplete | js/script.js:259 | If the query alternative can end at some mark, the matcher finds that mark or a later one |
| YouTubeUrl.MatchLongSound | js/script.js:259 | Whatever path the `youtube.com/` alternative returns really matches |
| YouTubeUrl.MatchAtSound | js/script.js:259 | Whatever path is returned at a start position really matches there |
| YouTubeUrl.ChannelIsTriedFirst | js/script.js:259 | When `[^\/]+\/.+\/` can match, backtracking takes it, with its greedy run reaching at least as far |
| YouTubeUrl.KeywordIsTriedFirst | js/script.js:259 | When `v/`, `embed/` or `e/` matches, backtracking takes it or an alternative written before it |
| YouTubeUrl.QueryIsTriedFirst | js/script.js:259 | When `.*[?&]v=` can match, backtracking takes an earlier alternative or this one with the mark at least as far right |
| YouTubeUrl.ShortIsTried | js/script.js:259 | When `youtu.be/` and an id match, the match at that start succeeds |
| YouTubeUrl.MatchAtIsFirstPath | js/script.js:259 | At one start, the matcher fails exactly when no path matches; otherwise no matching path comes before the one it returns in backtracking order |
| YouTubeUrl.PrecedesTotal | js/script.js:259 | Backtracking order ranks any two different paths |
| YouTubeUrl.Search | js/script.js:266 | A start position found by the search is at or after where it began, and the pattern matches there |
| YouTubeUrl.SearchSkips | js/script.js:266 | A start where the pattern fails is skipped |
| YouTubeUrl.NoMatchInAt | js/script.js:266 | Every start inside a range the search skipped fails |
| YouTubeUrl.SearchIsLeftmost | js/script.js:266 | The search passes only failing starts, and gives up only when every start up to the end of the string fails |
| YouTubeUrl.NoMatchAnywhere | js/script.js:266-268 | When the search gives up, the pattern matches at no start along any path |
| YouTubeUrl.SearchFindsFirstMatch | js/script.js:266 | Where the search stops is the ECMAScript first match: the leftmost start, with the first path backtracking tries there |
| YouTubeUrl.FirstMatchUnique | js/script.js:266 | There is at most one first match |
| YouTubeUrl.VideoId | js/script.js:264-268 | A returned id is a valid 11-character id |
| YouTubeUrl.VideoIdIsFirstMatch | js/script.js:264-268 | `getYouTubeVideoId` returns null exactly when the pattern matches nowhere; otherwise it returns group 1 of the first match, and that match exists |
| YouTubeUrl.IsYouTubeVideo | js/script.js:256-261 | `isYouTubeVideo`: false for an absent or empty url, otherwise whether the search finds a match; its meaning is `IsYouTubeVideoAgreesWithVideoId` |
| YouTubeUrl.IsYouTubeVideoAgreesWithVideoId | js/script.js:256-268 | `isYouTubeVideo` is false for an absent or empty url; otherwise it holds exactly when the pattern matches, which is exactly when `getYouTubeVideoId` returns an id |
| YouTubeUrl.VideoIdShape | js/script.js:264-268 | A returned id is the 11 characters of the url right after a matched `youtube.com/...` or `youtu.be/` prefix |
| YouTubeForms.LitAtChar | js/script.js:259 | A literal matched under the `i` flag matches character by character |
| YouTubeForms.LitAtCharIf | js/script.js:259 | If a literal matches, each of its characters matches |
| YouTubeForms.PrefixStartsWithY | js/script.js:259 | Every path of the pattern starts with a character that folds to `y` |
| YouTubeForms.NoMatchInPrefix | js/script.js:259 | No match can start in a leading part with no character that folds to `y` |
| YouTubeForms.LongHostAt | js/script.js:259 | Where `youtube.com/` is spelt out, `youtu.be/` does not match |
| YouTubeForms.NoChannelWithOneSlash | js/script.js:259 | `[^\/]+\/.+\/` needs two slashes after the host, so one slash is not enough |
| YouTubeForms.ShortIsFirst | js/script.js:259 | Without `youtube.com/`, no path comes before `youtu.be/` |
| YouTubeForms.VIsFirst | js/script.js:259 | When the channel alternative cannot match, no path comes before `v/` |
| YouTubeForms.EmbedIsFirst | js/script.js:259 | When neither the channel alternative nor `v/` can match, no path comes before `embed/` |
| YouTubeForms.QueryIsFirst | js/script.js:259 | When no earlier alternative and no later mark can match, no path comes before the query path at that mark |
| YouTubeForms.WatchRest | js/script.js:265 | After the host in a watch url, the only `?` is the one after `watch`, and there is no slash |
| YouTubeForms.WatchAfterHost | js/script.js:265 | After `youtube.com/` in a watch url, the query path matches first, and its capture is the id |
| YouTubeForms.KeywordRest | js/script.js:265 | In keyword, id and tail, the only slash ends the keyword |
| YouTubeForms.KeywordAfterHost | js/script.js:265 | After the host, a one-slash keyword rules out the channel alternative and the id follows it |
| YouTubeForms.KeywordForm | js/script.js:265 | For `youtube.com/<keyword>/<id>` nothing matches before the host and the id follows the keyword |
| YouTubeForms.ShortForm | js/script.js:265 | `youtu.be/` followed by 11 or more allowed characters yields the first 11, in any case of the host |
| YouTubeForms.WatchForm | js/script.js:265 | `youtube.com/watch?v=ID` followed by allowed characters yields ID |
| YouTubeForms.EmbedForm | js/script.js:265 | `youtube.com/embed/ID` followed by text without a slash yields ID |
| YouTubeForms.VForm | js/script.js:265 | `youtube.com/v/ID` followed by text without a slash yields ID |
| Media.Truthy | js/script.js:148 | JavaScript truthiness of an optional string, as `||` and `!url` test it: present and not empty |
| Media.Thumbnail | js/script.js:271-274 | The thumbnail url is the fixed `img.youtube.com/vi/` prefix, then the id, then the `hqdefault.jpg` suffix |
| Media.EmbedUrl | js/script.js:277-279 | The embed url is the fixed `www.youtube.com/embed/` prefix, then the id, then the autoplay query |
| Media.ThumbnailInjective | js/script.js:271-274 | Different ids give different thumbnail urls |
| Media.EmbedUrlInjective | js/script.js:277-279 | Different ids give different embed urls |
| Media.EmbedSchemeHasNoHost | js/script.js:277-279 | The embed url's `https://www.` part cannot start a match |
| Media.EmbedHostIsLongHost | js/script.js:277-279 | The embed url's host is the pattern's `youtube.com/` |
| Media.EmbedKeywordAndQuery | js/script.js:277-279 | The embed url's path is the `embed/` keyword, and its query has no slash |
| Media.EmbedUrlRoundTrip | js/script.js:256-279 | The embed url of a valid id is itself a YouTube url, and the pattern extracts that same id from it |
| Media.GetMediaInfo | js/script.js:282-293 | `isImage` iff the media type is `image`; `isYouTube` iff the url matches (media type ignored); `isVideo` iff neither; for YouTube the id and thumbnail come from the url, and otherwise the record's own thumbnail is kept |
| Media.CardThumb | js/script.js:148 | A card's thumbnail is the record's when truthy, otherwise the fixed placeholder, and is never empty |
| Media.Present | js/script.js:146-183 | An image shows `url` on the card and `hdurl` or else `url` in the modal; otherwise a YouTube url plays its id's embed url with its id's thumbnail; anything else frames the raw url with its thumbnail or the placeholder |
| Media.YouTubePlaysSameVideo | js/script.js:176-179 | The player the modal opens for a YouTube item is itself recognised, and names the same video as the item's url |
| Media.HttpsHasNoHost | js/script.js:265 | The `https://` scheme cannot start a match |
| Media.ShortLinkHost | js/script.js:265 | `youtu.be/` is the pattern's short host |
| Media.ShortLinkIdChars | js/script.js:265 | `dQw4w9WgXcQ` consists of allowed id characters |
| Media.ShortLinkId | js/script.js:264-268 | `getYouTubeVideoId("https://youtu.be/dQw4w9WgXcQ")` is `dQw4w9WgXcQ` |
| Media.ShortLinkIsYouTube | js/script.js:256-261 | `https://youtu.be/dQw4w9WgXcQ` is a YouTube url |
| Media.ShortLinkVideoPlays | js/script.js:282-293 | A video record with that url is YouTube, has that id, and plays that id's embed url with that id's thumbnail |
| Media.ImageWithYouTubeUrl | js/script.js:282-293 | An image record with that url is flagged both image and YouTube, not other video, and still shows as an image |
| DateRange.Less | js/script.js:39 | JavaScript's `<` on strings: the first differing character decides, and a proper prefix comes first |
| DateRange.LessIrreflexive | js/script.js:39 | No string is less than itself |
| DateRange.LessTrichotomy | js/script.js:39 | Of two strings, exactly one is less, or they are equal |
| DateRange.LessTransitive | js/script.js:39 | String order is transitive |
| DateRange.ValidRange | js/script.js:37-40 | A range is valid iff both values are non-empty and the start equals or precedes the end in string order |
| DateRange.ValidRangeReflexive | js/script.js:37-40 | A one-day range is valid |
| DateRange.ValidRangeAntisymmetric | js/script.js:37-40 | A range valid in both directions has equal start and end |
| DateRange.ValidRangeTransitive | js/script.js:37-40 | Valid ranges chain: a to b and b to c give a to c |
| DateRange.ValidRangeTotal | js/script.js:37-40 | Of two non-empty values, one order or the other is valid |
| DateRange.LessAppend | js/script.js:39 | Strings compare first on equal-length leading parts, then on the rest |
| DateRange.DigitsValue | js/script.js:39 | The number a digit string spells is below ten to the power of its length |
| DateRange.DigitsOrder | js/script.js:39 | On digit strings of one length, string order is numeric order and equality is numeric equality |
| DateRange.LessSplit | js/script.js:39 | Strings compare first on their parts before a cut point |
| DateRange.IsoMonthDayOrder | js/script.js:39 | After the year, the string order is month-then-day order |
| DateRange.IsoDateOrder | js/script.js:39 | On `yyyy-mm-dd` values, string order is calendar order and string equality is date equality |
| DateRange.ValidRangeOfDates | js/script.js:37-40 | On two ten-character `yyyy-mm-dd` values, the range is valid exactly when the end date is not before the start date |
| DateRange.LongYearOutOfOrder | js/script.js:37-40 | A start in year 10000 and an end in 2024 make a valid range, although the start is later in the calendar: the first characters `1` and `2` decide |
| Response.Reversed | js/script.js:99 | The reversal has the same length and element `i` is the input's element `n-1-i` |
| Response.ReversedInvolution | js/script.js:99 | Reversing twice gives the list back |
| Response.ReversedHead | js/script.js:99 | The first element after reversal is the last element the API sent |
| Response.ReversedPermutation | js/script.js:99 | Reversal keeps every element, as often as it occurs |
| Response.ReverseInPlace | js/script.js:99 | `Array.prototype.reverse` leaves the array holding the reversal of its old contents |
| Response.Body | js/script.js:97-98 | The decoded body `Array.isArray` tells apart: a list of records or a single record |
| Response.Normalize | js/script.js:98-99 | A list body is reversed in place and is the list rendered; a single record becomes a fresh one-element list |
| Response.BackwardsIsDescending | js/script.js:99 | An ascending list read back to front is descending |
| Response.NewestFirst | js/script.js:99 | A list in increasing date order is newest first after the reversal |

## Left out

- HTTP, JSON decoding and the error branch of the fetch handler (`js/script.js:93-105`): I/O. The decoded body is the input of `Response.Normalize`.
- The DOM: templating, `innerHTML`, event listeners, button states, the loading spinner, opening and closing the modal, the "No results." message and the date formatting with `toLocaleDateString`. None of these computes anything the model states.
- The random space fact and its 15-second timer: randomness and a clock.
- Today's date, the seven-day default range, `setupDateInputs` and `dateRange.js`: a clock, and code outside `js/script.js`. `dateRange.js` is not part of this model.
- The API key and the request url.
- HTML escaping: the templates insert `title`, `url` and the other fields unescaped. The model claims nothing about escaping.
- Text.Fold: case folding covers ASCII letters only, which matches the `i` flag without `u` for the literals of this pattern.
- Strings: a Dafny `char` is a Unicode scalar value, while a JavaScript string is a sequence of UTF-16 code units. The two agree on text inside the Basic Multilingual Plane. Input holding characters outside it (an emoji, say) is not modelled: JavaScript sees two code units where the model sees one character.
- YouTubeUrl.VideoId: for a url with characters outside the Basic Multilingual Plane, JavaScript counts the 11 id characters in code units and can return half of a surrogate pair; the model counts characters, so its result differs on such urls.
- DateRange.Less: orders characters outside the Basic Multilingual Plane above U+E000 to U+FFFF, where JavaScript's code-unit order puts them below. Set date inputs hold only ASCII digits and `-`, where the two orders agree.
- Media.Item: `url`, `hdurl` and `thumbnail_url` are optional strings. A non-string value is not modelled, and neither is a missing `media_type`, which is treated like any non-`image` value.
- Media.Present: an absent `url` shows as `None`, on the card and in the modal of an image (the modal when `hdurl` is also falsy) and in the frame of a non-YouTube video. The page would print the text `undefined` into the `src` attribute.
- DateRange.ValidRange: the input values are any strings, as in the code, which compares whatever the inputs hold.
- DateRange.ValidRangeOfDates: covers only ten-character `yyyy-mm-dd` values. A date input may also hold a year of five or more digits, and the start input has no upper bound. On such values `validRange` is not calendar order: start `10000-01-01` with end `2024-06-01` is accepted (`DateRange.LongYearOutOfOrder`).
- Response.NewestFirst: assumes the API lists the days of a range in increasing date order. The code does not check the order it receives.
