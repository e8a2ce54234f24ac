# turntable-cloud stream matching, in Dafny

This project models `findStream` in `src/index.ts`, which the stream lambda calls, and `discographyFromDiscogs` in `src/discography.ts`, which builds the Discogs half of an artist's discography.

**Stream lookup** (`src/index.ts`). A song (title, artist, album, duration) is turned into a search query. Every search result is scored against the song:
- hard filters reject a result: title similarity below 75, an unofficial marker such as "live" or "remix" that the song's own title lacks, or, when both durations are known, durations more than 90 s apart;
- score adjustments follow: a duration penalty, artist confirmation (+2 or -5) and an album bonus (+5);
- a result is accepted when its score is 80 or more.

Among the accepted results, the first one scoring 90 or more is chosen, otherwise the earliest one with the highest score. The chosen video's audio-only formats are split into a high-quality stream and a low-quality one. The expiry time is read from the low-quality URL's `expire=` parameter.

**Discogs discography** (`src/discography.ts`). The rows of an artist's release table are walked in order. Header rows switch the current section type (LP, EP or Other). Every other row becomes one album. Its type is EP or Single when its format list says so, and otherwise the section's type.

Modules, one per file:
- `Wrappers` (wrappers.dfy): `Option` stands for JavaScript's `null`/`undefined`/`NaN`, and `Result` stands for a thrown exception.
- `Text` (text.dfy): the JavaScript string operations the code uses: `includes`, `split` (with `Join`, its inverse, for the round trip), `toLowerCase`, the `\w` class and `Number.parseInt`.
- `Expiry` (expiry.dfy): `expiryDateFromStreamUrl` and the regular expression `\bexpire=(\d+)\b`.
- `Scoring` (scoring.dfy): the query builder, the regular expression for unofficial markers, the scoring stages and the per-result scorer.
- `Choice` (choice.dfy): scoring all results, filtering the survivors, choosing one, and `findSongOnYouTube`.
- `Streams` (streams.dfy): picking the high- and low-quality formats, and the result of `findStream`.
- `Discography` (discography.dfy): the section-type state machine and how each release row is turned into an album.

Outside collaborators become parameters:
- the fuzzy matcher `fuzzball.partial_ratio` is `ratio: (string, string) -> int`, with no properties assumed;
- the search provider is `search: string -> seq<Video>`;
- the stream resolver `ytdl.getInfo` is `getInfo: string -> Result<VideoInfo, string>`;
- the clock `Date.now()` is `now: int`.

Scores are `real`, because `durationDiff / 2000` is fractional.

Behaviour of the code that the model keeps as written:
- **One candidate, no retries.** The code has no ranking, retry or fallback. It picks one id ("first score of 90 or more, else the earliest maximum"), resolves only that id, and rethrows any resolver error (`Failure(InfoFailed(_))`). A zero expiry is returned like any other.
- **Marker check.** The matched marker is looked up in the song's title with `includes`: case-sensitively, as written in the result's title, and not only as a whole word.
- **Description check.** Only the description is lower-cased, not the artist or album looked up in it. So an artist name with a capital letter never matches the description (`Scoring.DescriptionNeverConfirmsCapitalisedArtist`).
- **Album bonus threshold.** The album test is strict: `> 85`.
- **Empty answer.** The empty answer is `{highQuality: null, lowQuality: null}`, with no `expiryDate` field (`Streams.NoStream`).
- **Empty id.** A chosen id that is the empty string (a link of 28 characters or fewer) is falsy in `findStream`, so it also gives the empty answer.
- **No audio formats.** An empty list of audio formats leaves `lq` undefined. Reading `lq.url` then throws a `TypeError`, modelled as `Failure(NoAudioFormat)`.

## Model

| member | source | states |
|---|---|---|
| Text.Contains | src/index.ts:56 | `includes` holds exactly when the needle occurs at some index of the text |
| Text.ToLower | src/index.ts:82 | `toLowerCase` keeps the length and lower-cases each character on its own (ASCII letters only) |
| Text.Split | src/discography.ts:51 | `split` with a non-empty separator gives at least one piece, and no piece contains the separator |
| Text.JoinSplit | src/discography.ts:51 | `split(", ")` loses nothing: joining the pieces with the separator gives back the split text |
| Text.ParseIntDecimal | src/discography.ts:66 | `parseInt` reads every decimal numeral back as the number it denotes |
| Text.ParseInt | src/index.ts:26 | `Number.parseInt` gives NaN for blank text and for text whose first non-blank character is neither a digit nor a sign, and a negative number only after a `-` sign |
| Text.ParseTrimmed | src/discography.ts:66 | once leading white space is gone, an empty text or one starting with neither a digit nor a sign is NaN, and only a leading `-` gives a negative number |
| Text.ParseIntSkipsSpace | src/index.ts:179 | white space before the number does not change what `parseInt` reads |
| Text.ParseIntNegative | src/discography.ts:66 | `parseInt` of `-` followed by a numeral is the negated value of the numeral |
| Expiry.TokenAt | src/index.ts:7 | a match of `\bexpire=(\d+)\b` at an index needs a word boundary before `expire=`; its capture is the non-empty run of decimal digits right after the key, and a non-word character or the end of the URL follows that run |
| Expiry.TokenAtDigitRun | src/index.ts:7 | conversely, the key with a boundary before it, followed by a non-empty digit run that ends at a non-word character or the end of the URL, matches there and captures that run |
| Expiry.FindToken | src/index.ts:24 | the search returns the leftmost index where the expression matches, and reports no match only when no index matches |
| Expiry.ExpiryDateFromStreamUrl | src/index.ts:23-30 | the expiry is never negative; it is 0 when the expression matches nowhere; it is non-zero only when `expire=` occurs; for the leftmost match it is the captured digits' value times 1000 |
| Expiry.ExpiryOfLeftmostToken | src/index.ts:23-30 | whenever the leftmost match lies at some index, the expiry is the value of the digits captured there, times 1000 |
| Expiry.ExpiryRoundTrip | src/index.ts:23-30 | writing `expire=<n>` into a URL after a separator, with no earlier `expire=`, and parsing it back gives `n * 1000` |
| Scoring.BuildQuery | src/index.ts:39-42 | the query starts with "title artist"; the album is appended (after a space) iff it is non-empty, differs from the artist and has at most 40 characters |
| Scoring.AlternativeAt | src/index.ts:6 | a marker word matches at an index only as a whole word, compared case-insensitively (ASCII), and only when it fits inside the title |
| Scoring.NoAlternativeMeansNoMarker | src/index.ts:6 | the alternatives are tried in order, and no match at an index means that no marker word, from the given one on, occurs there as a whole word |
| Scoring.MarkerPosition | src/index.ts:55 | the marker search returns the leftmost index where some marker word matches, or `None` when none matches anywhere |
| Scoring.FindMarker | src/index.ts:55 | `exec(...)[0]` is the text of the title at the leftmost match, as written, and is absent only when no index matches |
| Scoring.MarkerIsMarkerWord | src/index.ts:6 | whatever the marker expression matches is one of live, remix, mix, cover, unofficial, instrumental or sessions, up to case |
| Scoring.OwnTitlePassesMarkerFilter | src/index.ts:55-58 | a result titled exactly like the song is never rejected by the marker filter |
| Scoring.PassesMarkerFilter | src/index.ts:55-58 | a title with no marker passes; a title with a marker passes exactly when the marker's text, as written, occurs in the song's title; a title that fails carries a marker word (up to case) |
| Scoring.DurationStage | src/index.ts:65-80 | unknown song duration leaves the score untouched; rejection happens exactly when both durations are known and more than 90000 ms apart; otherwise the score drops by gap/2000 (known video duration) or by 5 (unknown), so by at most 45 |
| Scoring.SearchableDescription | src/index.ts:82 | the searched description is "" when the result has none, otherwise as long as the description and free of upper-case letters |
| Scoring.ArtistStage | src/index.ts:82-93 | the score changes by exactly +2, 0 or -5; +2 iff the channel matches the artist at 85 or more; -5 iff neither the channel nor the title match at 85 and the lower-cased description does not contain the artist |
| Scoring.AlbumStage | src/index.ts:95-100 | the score changes by 0 or +5; +5 iff an album is given, the running score is below 85, and the title matches the album above 85 or the description contains it |
| Scoring.VideoId | src/index.ts:104 | the id is what follows the first 28 characters of the link, or "" for a shorter link |
| Scoring.VideoIdOfWatchLink | src/index.ts:104 | cutting the id out of `https://youtube.com/watch?v=` + id gives back the id |
| Scoring.GatedScore | src/index.ts:50-80 | the three filters reject exactly when title similarity is below 75, the marker filter fails, or both durations are known and more than 90 s apart; a surviving score never exceeds the title similarity, and equals it when the song's duration is unknown |
| Scoring.AdjustedScore | src/index.ts:82-100 | the artist and album stages move the score by at most -5 and +7, and a channel that matches the artist lifts it by at least 2 |
| Scoring.ScoreVideo | src/index.ts:49-109 | a result is accepted exactly when it passes the three filters and its adjusted score reaches 80, and then carries that score and the id cut from its link; title similarity below 75, a marker missing from the song's title, or a duration gap over 90 s each reject it; an accepted score lies between 80 and title similarity + 7 |
| Scoring.GreatMatchNeedsStrongTitle | src/index.ts:84-100 | a score of 90 or more needs title similarity of at least 88, and of at least 90 without channel confirmation, because the album bonus is paid only below 85 |
| Scoring.ArtistChannelAccepted | src/index.ts:50-108 | with no marker, unknown song duration, title similarity of at least 78 and a channel that matches the artist, the result is accepted with at least its title similarity + 2 |
| Scoring.DescriptionNeverConfirmsCapitalisedArtist | src/index.ts:82-89 | an artist name holding an upper-case letter is never found in the lower-cased description, so without channel or title confirmation the score drops by 5 |
| Choice.Survivors | src/index.ts:111 | the survivors are exactly the non-null scored results and are no more numerous than the scored results |
| Choice.SurvivorsAppend | src/index.ts:111 | filtering commutes with concatenation, so survivors keep their input order |
| Choice.PickIsUnique | src/index.ts:116-129 | at most one survivor satisfies the choice rule |
| Choice.FirstGreat | src/index.ts:117 | `find` returns the first survivor scoring 90 or more, or none when every survivor is below 90 |
| Choice.EarliestBest | src/index.ts:122-128 | the loop with a strict `>` ends on a survivor of maximal score that no earlier survivor ties |
| Choice.ChooseVideo | src/index.ts:111-129 | no id iff no survivor; otherwise the id of the survivor picked by the rule "first scoring 90 or more, else earliest maximum" |
| Choice.SurvivorComesFromVideo | src/index.ts:49-111 | every survivor is the accepted score of some search result, and its id is cut from that result's link |
| Choice.ScoreAll | src/index.ts:49 | every search result gets exactly one score, in order: the list has the results' length and its i-th entry is the scorer's answer for the i-th result |
| Choice.FindSongOnYouTube | src/index.ts:38-130 | no id iff the scorer rejects every result of the search for the built query, that is iff nothing survives; otherwise the id of an accepted result, namely the picked survivor |
| Streams.PickHigh | src/index.ts:152-159 | the high-quality candidate has maximal bitrate and no earlier format ties it |
| Streams.PickLow | src/index.ts:160-164 | the low-quality candidate has the highest bitrate among formats strictly below the high one and at least 100, earliest on ties; none iff no format qualifies |
| Streams.SelectFormats | src/index.ts:150-170 | no selection iff there are no formats; otherwise the selection satisfies `IsSelection`: with a high stream, it is the earliest format of maximal bitrate, and the low stream is the earliest best format in [100, high); without one, the low stream is the earliest format of maximal bitrate and no format qualifies below it; both come from the input |
| Streams.StreamsFor | src/index.ts:132-182 | no id or an empty id gives the empty answer. Resolver errors and empty format lists are the only failures, and resolver errors are passed on unchanged. A found answer's high and low streams are the selection of `findStream`'s two loops and swap over the resolved formats (`IsSelection`); `expiryDate` is read from the low stream's URL, `lifespan == expiryDate - now`, and `duration` is the parsed length in milliseconds |
| Streams.LengthMs | src/index.ts:179 | the duration is NaN exactly when the length does not parse, and otherwise 1000 times the parsed seconds |
| Streams.LengthMsOfNumeral | src/index.ts:179 | a length written as a numeral of seconds gives that many seconds in milliseconds |
| Streams.FindStream | src/index.ts:132-183 | the answer is empty exactly when nothing survives the scorer or the picked survivor's id is empty; it is a failure exactly when the picked survivor has a non-empty id whose lookup fails or yields no formats; a found answer is for the picked survivor, its streams are the selection over that video's formats, its expiry and lifespan come from the low stream's URL and `now`, and its duration from the resolved length |
| Discography.Unwrap | src/discography.ts:51 | `slice(1, length - 1)` drops exactly the first and last characters, and gives "" for texts shorter than two characters |
| Discography.Formats | src/discography.ts:50-51 | the format list joined with ", " is the unwrapped format text; it has at least one entry and none contains ", " |
| Discography.ReleaseType | src/discography.ts:52-57 | "EP" among the formats gives EP, whatever else is there; otherwise `7"` or "Single" gives Single; otherwise the section type |
| Discography.YearOf | src/discography.ts:66 | the year is the parsed integer when parsing succeeds and gives a non-zero value, and absent exactly when parsing gives NaN or 0 |
| Discography.YearOfNumeral | src/discography.ts:66 | a non-zero year written as a plain numeral is read back unchanged |
| Discography.ReleaseAlbum | src/discography.ts:44-67 | a release row becomes an album with its title, artist, label and thumbnail unchanged, the year `parseInt` reads from it, and the type `ReleaseType` gives for its formats under the current section: EP when they list "EP", otherwise Single for `7"` or "Single", otherwise the section type |
| Discography.HeaderRowSetsSection | src/discography.ts:32-41 | "Albums" sets LP, "Singles & EPs" sets EP, "Miscellaneous" sets Other; any other header text keeps the current type |
| Discography.LastSectionHeaderWins | src/discography.ts:27-41 | the section type in force after a run of rows (`SectionAfter`) is the one set by the last header row that names a known section |
| Discography.SectionUnchangedWithoutHeaders | src/discography.ts:42-57 | rows that name no known section (all release rows among them) never change the section type in force |
| Discography.LPBeforeAnyHeader | src/discography.ts:27 | before the first header row the section type is LP |
| Discography.ReleaseIndices | src/discography.ts:30-42 | the release rows are exactly the non-header rows, in increasing order |
| Discography.AlbumsFromRows | src/discography.ts:27-70 | there is one album per release row, in row order; album k carries the k-th release row's fields, with the type its formats give under the section in force just before that row |
| Discography.ReleaseCount | src/discography.ts:28-68 | the number of albums is the number of rows minus the number of header rows |

## Left out

- The fuzzy matcher `fuzzball.partial_ratio` (a foreign library) is not modelled. Its collation and ASCII options are not modelled either. The scorer takes it as the parameter `ratio`, and no property relies on what it returns.
- `scrapeYt` is network I/O. The model takes its results from the parameter `search`. Its `limit: 6` and `type: "video"` options are the provider's business. A failing search, which makes `findStream` throw, is not modelled: `search` always returns results.
- `ytdl.getInfo` is network I/O. The model takes its answer from the parameter `getInfo`. `ytdl.filterFormats(..., "audioonly")` is foreign code: `VideoInfo.formats` is already the audio-only list.
- `Date.now()` is the parameter `now`.
- `Promise.all` scores the results concurrently. The model scores them in order, since each score depends only on its own result.
- The Lambda `handler`s (src/index.ts:186-202, src/discography.ts:102-105) and JSON serialisation are request plumbing and are not modelled.
- The artist lookups and the MusicBrainz discography are network calls with no decision logic: `findArtistOnDiscogs`, `findArtistOnMusicBrainz`, `discographyFromMusicBrainz`, `searchArtists` and `combinedDiscography`.
- The Axios page fetch and cheerio's selector evaluation in `discographyFromDiscogs` are I/O and DOM. A row arrives as the record of texts those selectors read. A missing `class` attribute makes `className.includes` throw; the model gives every row a class string instead.
- `simplifyStreamFormat` only copies `url`, `audioEncoding` and `audioBitrate`. `Format` holds exactly those three fields, so the copy is the identity.
- Floating point is not modelled. Parsed numbers, `* 1000` and durations are exact integers, without IEEE rounding of very large values. Scores are exact reals. Video durations are whole seconds. Bitrates are integers and never `null`.
- `toLowerCase` and the `i` flag are modelled for ASCII letters only. For the `i` flag outside unicode mode this is exact. For `toLowerCase`, non-ASCII letters are left unchanged in the model.
- JavaScript strings are UTF-16 code units, while the model's strings are sequences of characters. Lengths (the 40-character album limit, the 28-character link prefix) can differ for characters outside the Basic Multilingual Plane.
- `song.albumArtist` is read by no modelled code.
