# Podcast player core in Dafny

A model of the logic of a browser podcast player. The player exists as two near-identical
front ends: the full player (`app.js`) and the basic player (`k-pod/k-pod/app.js`). Together
they do the following:

- fetch a podcast's RSS feed through an ordered list of relay services, stopping at the first
  acceptable answer;
- rebuild an RSS 2.0 document from a feed-to-JSON relay's answer;
- extract episodes from the parsed feed;
- keep the catalog state (podcast list, current podcast, full and filtered episode lists);
- drive an audio element (play, seek, speed, sleep timer, auto-play of the next episode);
- maintain the `/podcast/<slug>` address of a podcast;
- format durations, clock times and download file names.

The browser is abstracted away throughout. A network request becomes the outcome it had
(threw, or a response). The XML engine becomes a function from text to an abstract document
record. Clocks and timer handles are parameters.

Modules, one file each:

| file | module | contents |
|---|---|---|
| Wrappers.dfy | Wrappers | `Option` (a missing value) and `Result` (a thrown `Error` with its message) |
| Js.dfy | Js | the JavaScript primitives the code relies on: `trim`, ASCII `toLowerCase`, `includes`, `startsWith`, global literal `replace`, `split`, `findIndex`, `filter(p => p)`, `toString`, `padStart`, `parseInt`, the truncating `%` |
| Rss2Json.dfy | Rss2Json | `escapeXml`, its inverse, and `convertRSS2JSONToXML` both as a function and as the string-appending loop of the JavaScript |
| Fetch.dfy | Fetch | proxy lists, acceptance checks, JSON envelope decoding, and the three fallback loops |
| FeedParser.dfy | FeedParser | `parseRSSFeed`: fallback chains for each field, the first-100 slice, the audio filter |
| Catalog.dfy | Catalog | podcast and episode objects, search, trailing-comma cleanup, artwork batches, and the `Catalog` class with its state updates |
| Routing.dfy | Routing | `slugify`, `updateURL`, `handleInitialRoute` |
| Format.dfy | Format | `formatDuration`, both `formatTime` variants, a clock-text reader as their inverse, `sanitizeFilename` |
| Playback.dfy | Playback | the `AudioElement` class, the full player's `Session` and the basic player's `BasicSession` |

Where the design description and the code disagree, the model follows the code:

- **Feeds with more than 100 items.** The description says such a feed yields exactly 100 episodes. In the code the slice runs before the audio filter, so a feed yields at most 100 episodes, and can yield none (`FeedParser.SliceBeforeFilter`).
- **The xml declaration.** The description accepts a body containing `<?xml`. The basic player's check does not accept that alone (`Fetch.XmlDeclarationOnly`).

## Model

| member | source | states |
|---|---|---|
| Js.TrimIdempotent | app.js:666 | trimming twice is trimming once |
| Js.TrimShape | app.js:666 | the trimmed text neither starts nor ends with whitespace |
| Js.LowerIdempotent | app.js:801 | lower-casing twice is lower-casing once |
| Js.ReplaceCharConcat | app.js:657-661 | a global one-character replacement works piece by piece over a concatenation |
| Js.CountInert | app.js:631-652 | a prefix that cannot start an occurrence of a pattern adds no occurrences |
| Js.CountMatch | app.js:631-652 | a pattern whose first character does not recur counts once more when it is prepended |
| Js.SplitAt | app.js:95 | splitting at the first separator gives the piece before it, then the split of the rest |
| Js.Find | app.js:107 | `find` gives the first element that satisfies the predicate, or none when no element does |
| Js.NatToString | app.js:1121-1124 | a natural number renders as a non-empty run of decimal digits |
| Js.DecimalValueOfNatToString | app.js:1114 | reading the decimal rendering of n gives n back |
| Js.ParseIntOfNatToString | app.js:1114 | `parseInt` of the decimal rendering of n is n |
| Js.PadStart2 | app.js:1122 | strings of length two or more are unchanged; shorter ones are left-filled with '0' to length 2 |
| Js.DigitRun | app.js:107 | the longest prefix made of digits: every character is a digit, and the next one is not |
| Js.Trunc | app.js:1131 | truncation toward zero: for x >= 0 a non-negative r with r <= x < r + 1, for x < 0 a non-positive r with r - 1 < x <= r |
| Js.RemInt | app.js:1118-1119 | a is m times the truncated quotient plus r; r is smaller than m in magnitude and takes the sign of the dividend |
| Js.ParseIntOfIntToString | app.js:588 | `parseInt` reads the decimal rendering of any integer, negative ones included, back as that integer |
| Rss2Json.EscapeXmlTokens | app.js:654-662 | the five chained replacements escape each special character by its own entity, each independently of the others |
| Rss2Json.EscapePass | app.js:657-661 | each replacement pass maps characters escaped by the earlier passes to those escaped by one more pass |
| Rss2Json.EscapeXmlNoMarkup | app.js:654-662 | the escaped text holds no '<', '>', '"' or "'" |
| Rss2Json.UnescapeEscape | app.js:654-662 | decoding &lt; &gt; &quot; &apos;, then &amp;, restores the input exactly |
| Rss2Json.DecodePass | app.js:654-662 | each decoding pass restores one more special character and disturbs no other entity |
| Rss2Json.SpecialIndex | app.js:654-662 | the position of a character among the five specials, or 5 exactly when it is none of them |
| Rss2Json.ConvertToXml | app.js:631-652 | the string-appending loop builds the rebuilt document: the fixed header, the channel metadata, one item element per JSON item, the footer |
| Rss2Json.AppendItems | app.js:639-648 | the forEach over `json.items` appends the item elements in order |
| Rss2Json.AppendItem | app.js:640-647 | one loop iteration appends the title, description, pubDate and, when the link is set, enclosure elements |
| Rss2Json.AppendChannel | app.js:632-637 | the declaration, the rss and channel openings, the title (default 'Podcast'), the description and the optional itunes:image |
| Rss2Json.DocumentItemCount | app.js:639-648 | the document holds exactly one `<item>` per JSON item |
| Rss2Json.DocumentEnclosureCount | app.js:644-646 | the document holds one `<enclosure` per JSON item whose enclosure has a link, and no others |
| Rss2Json.ItemsCount | app.js:639-648 | the item elements hold one `<item>` per item, whatever text follows them |
| Rss2Json.ItemsEnclosureCount | app.js:644-646 | the item elements hold one `<enclosure` per linked item, whatever text follows them |
| Rss2Json.DocumentShape | app.js:631-652 | the document starts with the xml declaration and the rss and channel openings, ends with `</channel></rss>`, has no surrounding whitespace, and contains `<?xml` and `<rss` |
| Rss2Json.ChannelInert | app.js:632-637 | the channel metadata holds neither an `<item>` nor an `<enclosure` |
| Fetch.CheckApp | app.js:606-616 | accepted exactly when the trimmed text is non-empty and starts with '<', and the text contains `<rss`, `<feed` or `<?xml`; an accepted text is returned unchanged |
| Fetch.CheckBasic | k-pod/k-pod/app.js:332-339 | accepted exactly when the trimmed text starts with '<' and the text contains `<rss` or `<feed` |
| Fetch.AttemptApp | app.js:571-625 | one full-player attempt: a throw, a non-ok status, a JSON decode failure or a failed check each give the failure with its message; otherwise the accepted text |
| Fetch.Verdicts | app.js:570 | one verdict per strategy, in list order |
| Fetch.TryInOrder | app.js:568-626 | the first success, with exactly the strategies up to it tried and none after it; when all fail, every strategy is tried and the last error is remembered |
| Fetch.FetchRssFeed | app.js:538-628 | AllOrigins, AllOrigins-JSON, CorsProxy, RSS2JSON, CodeTabs, Direct are tried in order; the result is the first accepted text; when none is accepted, the error carries the last failure's message |
| Fetch.FetchRssFeedBasic | k-pod/k-pod/app.js:284-354 | the same over AllOrigins, CorsProxy, CodeTabs, Direct, with the basic player's check and error message |
| Fetch.FetchWithFallback | app.js:341-370 | Direct, AllOrigins, CorsProxy are tried in order; the first that does not throw wins, whatever its status; 'All fetch methods failed' when all throw |
| Fetch.BasicAcceptedByApp | k-pod/k-pod/app.js:332-339 | every text the basic player accepts, the full player accepts too |
| Fetch.XmlDeclarationOnly | k-pod/k-pod/app.js:336-339 | a body holding only an xml declaration is accepted by the full player and refused by the basic one |
| Fetch.DocumentAccepted | app.js:595-616 | the document rebuilt from RSS2JSON's items always passes the full player's check |
| Fetch.AcceptedText | app.js:606-616 | a text without surrounding whitespace that opens a tag and contains `<rss` is accepted |
| Fetch.Rss2JsonAccepted | app.js:593-616 | an ok RSS2JSON answer with items is accepted as the rebuilt document |
| Fetch.StatusMatters | app.js:587-589 | a non-ok response fails both feed fetchers with the HTTP error, yet counts as a success for the fallback fetcher |
| FeedParser.GetAttribute | app.js:692 | null exactly when the attribute is absent; otherwise its value |
| FeedParser.AudioUrl | app.js:713-732 | the enclosure url, else the media:content url by selector, else by tag name; empty exactly when all three are empty |
| FeedParser.Duration | app.js:734-741 | the trimmed itunes:duration text found by selector, else by tag name, else empty |
| FeedParser.TextOr | app.js:744-746 | the trimmed text when it is non-empty, else the default |
| FeedParser.Artwork | app.js:687-700 | the itunes:image href (by selector, else by tag name); when missing or empty, the trimmed `image url` text if that element exists |
| FeedParser.ChannelInfoOf | app.js:682-705 | the artwork as above; the description is present exactly when the channel has one, and is then its stripped, trimmed text |
| FeedParser.TitleNeverBlank | app.js:744 | every episode's title is non-empty and trimmed ('Untitled Episode' by default) |
| FeedParser.ParseRssFeed | app.js:664-760 | a parser error and a missing channel each fail with their message; these are the only failures; a success holds the audible episodes of the first 100 items and the channel information |
| FeedParser.PreprocessIsTrim | app.js:666 | trim already removes U+FEFF, so the engine sees exactly the trimmed text |
| FeedParser.FirstItems | app.js:712 | the first 100 items, or all of them when there are fewer |
| FeedParser.Keep | app.js:750 | an episode is kept exactly when its audio URL is non-empty |
| FeedParser.ExtractConcat | app.js:712-750 | map-then-filter distributes over concatenation, so document order is kept |
| FeedParser.AudibleConcat | app.js:712-750 | the episodes of two item lists in a row are the episodes of each, in order |
| FeedParser.AudibleMembers | app.js:712-750 | an episode is produced exactly when some item builds it and it has an audio URL |
| FeedParser.AudibleLength | app.js:712-750 | one episode per item with an audio URL: none is lost |
| FeedParser.AllAudible | app.js:712-750 | when every item has audio, the episodes are the items mapped in order |
| FeedParser.NoneAudible | app.js:750 | items without audio yield no episodes |
| FeedParser.FirstHundred | app.js:712-750 | at most 100 episodes, all with audio, and exactly those built from the first 100 items |
| FeedParser.SliceBeforeFilter | k-pod/k-pod/app.js:413-452 | items past the hundredth never contribute, even when the first hundred have no audio |
| FeedParser.ExtractMembers | app.js:712-750 | membership in the extraction, for any way of building episodes |
| FeedParser.ExtractLength | app.js:712-750 | the extraction's length is the number of elements whose episode has audio |
| Catalog.PodcastEntry.RecordFeedArtwork | app.js:389-394 | a truthy feed artwork is stored as `rssArtwork`; anything else leaves it unchanged; `displayArtwork` is untouched |
| Catalog.OrElse | app.js:479 | JavaScript `a \|\| b` on two nullable strings |
| Catalog.FindById | app.js:459 | `find(p => p.id === id)`: the first entry with that id, or none when no entry has it |
| Catalog.FilterMatching | app.js:806-809 | the kept episodes come from the list and match the query |
| Catalog.FilterMembers | app.js:806-809 | an episode is kept exactly when it is in the list and its lower-cased title or description contains the query |
| Catalog.SearchMembers | app.js:800-813 | an empty normalised query keeps the whole list; otherwise exactly the matching episodes are kept |
| Catalog.FilterConcat | app.js:806-809 | the filter keeps the order of its input |
| Catalog.FilterIdempotent | app.js:806-809 | filtering twice with the same query is filtering once |
| Catalog.SearchCaseInsensitive | app.js:801 | upper-case letters in the query make no difference |
| Catalog.SearchIdempotent | k-pod/k-pod/app.js:502-515 | searching the search result again changes nothing |
| Catalog.RemoveTrailingCommas | app.js:314 | the cleanup never lengthens the text |
| Catalog.CleanupKeepsContent | app.js:314 | the cleanup removes commas and nothing else |
| Catalog.CleanupWithoutCommas | app.js:314 | a text without commas is unchanged |
| Catalog.TrailingCommaRemoved | app.js:314 | a comma followed by whitespace and a closing bracket or brace is removed, and the whitespace is kept |
| Catalog.DoubleCommaSurvives | app.js:314 | the cleanup is a single pass: of two commas before a closer, only the second is removed |
| Catalog.Batches | app.js:377-381 | every batch holds between 1 and 5 podcasts |
| Catalog.BatchesPartition | app.js:377-381 | the batches concatenate back to the list, and all but the last are full |
| Catalog.MakeItems | app.js:507-508 | fresh, distinct episode objects holding the parsed episodes in order |
| Catalog.Catalog.LoadPodcasts | app.js:308-339 | a list that is fetched, cleaned and decoded replaces the podcasts; any failure keeps the old list; nothing else changes |
| Catalog.Catalog.SearchEpisodes | app.js:800-813 | the filtered list becomes the search result over the full list; nothing else changes; the filtered list stays drawn from the full list |
| Catalog.Catalog.GoHome | app.js:279-285 | no current podcast and both episode lists empty; the podcast list is kept |
| Catalog.Catalog.LoadEpisodes | app.js:472-533 | on a successful parse the display artwork becomes the feed's or the list's; both lists are replaced together, and only by a non-empty episode list; any fetch or parse error leaves both lists and the artwork as they were |
| Catalog.Catalog.OpenPodcast | app.js:458-470 | the current podcast becomes the first entry with the id, or null with the lists untouched when there is none; that entry then gets the outcome of loading its feed (display artwork and lists as for `loadEpisodes`); every other entry keeps its artwork |
| Routing.OtherRun | app.js:154 | the length of the leading run of characters outside `[a-z0-9]` |
| Routing.DashRuns | app.js:154 | the result uses only `[a-z0-9-]` and holds no double dash; it is empty exactly when the input is |
| Routing.LeadingDashes | app.js:155 | the length of the leading run of dashes |
| Routing.TrailingDashes | app.js:155 | the length of the trailing run of dashes |
| Routing.SlugifyShape | app.js:151-156 | every slug has the slug shape, and it keeps exactly the ASCII letters and digits of the lower-cased name, in order |
| Routing.DashRunsKeepsLetters | app.js:154 | collapsing runs neither loses nor adds a letter or digit |
| Routing.StripDashesKeepsLetters | app.js:155 | stripping dashes loses no letter or digit |
| Routing.StripDashesShape | app.js:155 | stripping dashes from a text without double dashes gives slug shape |
| Routing.SlugHasNoSlash | app.js:138 | a slug is a single path segment |
| Routing.SlugifyFixed | app.js:151-156 | a slug is its own slug |
| Routing.SlugifyIdempotent | app.js:151-156 | slugify is idempotent |
| Routing.UpdateUrl | app.js:130-149 | the address is "/podcast/" plus the slug of the first podcast with the id when the page is a podcast whose non-zero id is listed; otherwise "/" and no podcast id |
| Routing.InitialRoute | app.js:93-103 | no path segments is the home page; 'podcast' followed by a segment names a podcast by that slug; anything else is ignored |
| Routing.PodcastPathParts | app.js:95 | the segments of a podcast address |
| Routing.RouteOfPodcastPath | app.js:95-103 | the address of a non-empty slug reads back as that slug |
| Routing.EmptySlugIgnored | app.js:100 | a podcast whose name has no ASCII letter or digit gets an address that a page load ignores |
| Routing.FindAsWritten | app.js:107 | the first podcast whose slug matches or whose id equals `parseInt` of the slug |
| Routing.FindBySlug | app.js:107 | the first podcast whose slug, or whose whole decimal id, equals the path segment |
| Routing.RouteRoundTrip | app.js:93-149 | the address written for a podcast leads a page load back to that podcast, when no earlier podcast claims the same slug |
| Routing.FirstBySlug | app.js:107 | the lookup opens the first matching podcast |
| Routing.RouteById | app.js:107 | an address that writes a podcast's id in decimal opens it |
| Routing.AsWrittenPrefixMatch | app.js:107 | as written, the slug "99-x" opens the podcast with id 99, not the podcast named "99 x" |
| Routing.FirstAsWritten | app.js:107 | the as-written lookup opens the first podcast it matches |
| Routing.ParseIntOf99x | app.js:107 | `parseInt("99-x")` is 99 |
| Format.FormatDuration | app.js:1110-1125 | empty stays empty; text with ':' is returned unchanged; text that `parseInt` cannot read is returned unchanged; otherwise the clock text of the seconds read |
| Format.FormatDurationIdempotent | k-pod/k-pod/app.js:648-663 | formatting a formatted duration changes nothing |
| Format.FormatDurationRoundTrip | app.js:1110-1125 | a whole number of seconds written in decimal is rendered as a clock text that reads back as those seconds |
| Format.DurationClockRoundTrip | app.js:1117-1124 | the `h:mm:ss` or `m:ss` rendering of n seconds reads back as n |
| Format.ClockRoundTrip | app.js:1121-1124 | the template over hours, minutes below 60 and seconds below 60 reads back as their total |
| Format.ClockHasColon | app.js:1117-1124 | every rendering contains ':', negative counts included |
| Format.FormatTimeWholeSeconds | app.js:1127-1138 | on non-negative times the full player shows the whole seconds exactly as formatDuration would |
| Format.FormatTimeRoundTrip | app.js:1127-1138 | the full player's clock reads back as the whole seconds |
| Format.FormatTimeBasicMinutes | k-pod/k-pod/app.js:641-646 | the basic player shows whole minutes (never carried into hours), a colon and two-digit seconds |
| Format.FormatTimeBasicRoundTrip | k-pod/k-pod/app.js:641-646 | the basic player's clock reads back as the whole seconds |
| Format.FloorDivision | app.js:1130-1132 | flooring before or after dividing a non-negative time by 60 or 3600 agrees, and so do the remainders |
| Format.OneHourFull | app.js:1127-1138 | an hour shows as "1:00:00" in the full player |
| Format.OneHourBasic | k-pod/k-pod/app.js:641-646 | an hour shows as "60:00" in the basic player |
| Format.ReplaceOthers | app.js:1141 | the same length; ASCII letters, digits and spaces are kept and every other character becomes '_' |
| Format.CollapseWhite | app.js:1141 | no whitespace is left; each character is '_' or comes from the input; never longer |
| Format.SanitizeCharset | app.js:1140-1142 | a sanitized name uses only `[a-z0-9_]` and is never longer than the input |
| Format.SanitizeIdempotent | k-pod/k-pod/app.js:665-667 | sanitizing a sanitized name changes nothing |
| Playback.Rewound | app.js:181 | 15 seconds back, never below 0 and never past the start position |
| Playback.Forwarded | app.js:185 | 30 seconds on, never past the duration |
| Playback.AudioElement.TogglePlayPause | app.js:881-887 | paused becomes playing and playing becomes paused; nothing else changes |
| Playback.AudioElement.SetSource | app.js:819 | loading a source pauses at position 0 with an unknown duration |
| Playback.AudioElement.Rewind | app.js:179-182 | the position becomes the rewound one and never increases |
| Playback.AudioElement.Forward | k-pod/k-pod/app.js:73 | with a known duration the position becomes the forwarded one; with an unknown duration it stays; it never decreases |
| Playback.SpeedIndex | app.js:930 | `indexOf`: the position of a listed speed, -1 exactly for an unlisted one |
| Playback.NextSpeed | app.js:928-933 | the next speed is always a listed speed |
| Playback.NextOfListed | app.js:928-933 | each listed speed moves to the next, and 2 wraps to 0.5 |
| Playback.NextOfUnlisted | app.js:930-932 | an unlisted speed moves to 0.5 |
| Playback.CycleAdvances | app.js:928-933 | short of the end of the list, n presses move n places on |
| Playback.CycleWraps | app.js:928-933 | from a listed speed, pressing past the last speed reaches 0.5 |
| Playback.CycleReturns | app.js:928-933 | seven presses bring any listed speed back |
| Playback.CycleReachesAll | app.js:928-933 | from any speed at all, every listed speed is reached within seven presses |
| Playback.Distance | app.js:928-933 | from the jth listed speed, fewer than seven presses reach the tth |
| Playback.CycleCompose | app.js:928-933 | a presses and then b presses are a + b presses |
| Playback.At | app.js:816 | `list[index]`: undefined exactly outside the list |
| Playback.IndexOf | app.js:1023 | `indexOf` by object identity: the first position holding that object, or -1 exactly when it is absent |
| Playback.IndexOfDistinct | app.js:1023 | in a list of distinct objects, the object at i is found at i |
| Playback.NextToPlay | app.js:1020-1027 | a next index exists only with auto-play on; it follows the current episode's index; it exists whenever that index is not the last |
| Playback.NextAfter | app.js:1020-1027 | with distinct episodes, the episode after position i plays next, and after the last nothing plays |
| Playback.Session.PlayEpisode | app.js:815-824 | the current episode is the filtered list's element at the index (undefined out of range), assigned before the guard; an episode with audio is loaded at the session speed and played; otherwise the element is untouched |
| Playback.Session.CloseMiniPlayer | app.js:920-925 | the element is paused and emptied, and no episode is current |
| Playback.Session.SetSpeed | app.js:935-937 | the session speed and the element's rate become the speed together; nothing else changes |
| Playback.Session.CycleSpeed | app.js:928-933 | the session speed and the element's rate become the next speed |
| Playback.Session.CancelSleepTimer | app.js:1000-1005 | no timer and no deadline afterwards, whatever the state before, so cancelling twice is cancelling once |
| Playback.Session.SetSleepTimer | app.js:967-998 | any armed timer is replaced: exactly one timer, due minutes * 60000 ms from now |
| Playback.Session.SleepTimerExpires | app.js:973-984 | the audio is paused, the timer and its deadline are cleared, and the source, position, speed and duration are kept |
| Playback.Session.HandleEpisodeEnded | app.js:1020-1046 | the next filtered episode becomes current when there is one, and its audio starts from 0 at the chosen speed when it has an audio URL; otherwise the episode and the audio are unchanged; the speed and the sleep timer are kept |
| Playback.BasicSession.PlayEpisode | k-pod/k-pod/app.js:517-539 | as in the full player, but the loaded source plays at rate 1 with an unknown duration; with no current podcast the page update throws after the source is loaded and before `play()` |

## Left out

- Building proxy URLs (`encodeURIComponent`) is not modelled: a strategy is identified by its name only.
- Request timeouts through `AbortController` become the `Threw` outcome of an attempt.
- Logging to the console is not modelled.
- `JSON.parse` of the podcast list, and the check that `podcasts` is an array, are the `decode` parameter of `Catalog.Catalog.LoadPodcasts`.
- `response.json()` becomes the `json` field of a response.
- `DOMParser`, `querySelector` and `getElementsByTagName` are a foreign XML engine. They become the `parse` parameter and the abstract item and channel records.
- `stripHtml`, `escapeHtml` and `formatDate` depend on the DOM and on locale-aware dates. `stripHtml` is a parameter; the other two are not modelled.
- DOM rendering and UI state are not modelled: page switching, the mini player and now-playing views, loading indicators, the refresh button text, and the URL of `openPodcast`.
- `fetchAllPodcastArtwork` runs batches of 5 under `Promise.all` with a 50 ms pause between batches. Only the batch slicing (`Catalog.Batches`) and one podcast's artwork update (`Catalog.PodcastEntry.RecordFeedArtwork`) are modelled, not the concurrency.
- `setTimeout` and `setInterval` are not modelled. The sleep timer's expiry is the explicit method `Playback.Session.SleepTimerExpires`, with the clock and the timer handle as parameters. The 100 ms polling in `handleInitialRoute` is not modelled, nor are the UI delays.
- Times are reals, not IEEE doubles: rounding, infinite durations and negative zero are not modelled. Seek geometry, progress percentages and volume are not modelled.
- Playback.AudioElement.Forward: with an unknown (NaN) duration, `Math.min` gives NaN, and assigning NaN to `currentTime` throws. The model leaves the position unchanged in that case.
- Catalog.Catalog.LoadEpisodes and Catalog.Catalog.OpenPodcast: the `await fetchRSSFeed` is collapsed, so the fetch is assumed to complete before any other event. The model does not capture a stale completion: in the player, a fetch started by an earlier `openPodcast` that completes after a later one writes its artwork to the newer current podcast and replaces its episode lists, and one that completes after `goHome` throws a TypeError on the null current podcast without changing anything. The model's `fetched` is always the outcome for the current podcast, and with no current podcast it returns without change.
- Js.ParseInt: reads unbounded integers, so it does not model the loss of precision above 2^53.
- Js.Lower: covers ASCII letters only. Text is taken as a sequence of characters; UTF-16 code units are not modelled.
- The history API (`pushState`, `replaceState`, `popstate`) is not modelled: `Routing.UpdateUrl` returns the entry that would be written.
- Downloads, `window.open`, `refreshEpisodes`, the basic player's `closePlayer`, volume and seeking are not modelled.
- The unused `autoPlayNext` variable and the global `event.target` in `setSleepTimer` are not modelled. The auto-play checkbox is a boolean parameter.
- The `parts[0] === ''` test in `handleInitialRoute` can never hold after `filter(p => p)`, so it is not modelled.
- FeedParser.Extract: its own contract states only the length bound. The content is stated by `FeedParser.ExtractMembers`, `FeedParser.ExtractLength` and `FeedParser.ExtractConcat`.

## Findings

| source | as written | input that shows it | evidently intended | confidence | as-written member | corrected member |
|---|---|---|---|---|---|---|
| app.js:107 | a podcast matches a path slug when its own slug is equal, or when its id equals `parseInt(slug)`; `parseInt` reads only the leading digits | podcasts [id 99 named "a", id 7 named "99 x"]; the address of the second is "/podcast/99-x", and a page load at it opens the first (`parseInt("99-x")` is 99) | the id test should match only a slug that is the whole decimal id, so every podcast's address opens that podcast | medium, not executed | Routing.AsWrittenPrefixMatch | Routing.RouteRoundTrip |
