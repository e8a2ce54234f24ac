/** Matching one search result against the wanted song: the search query,
    the hard filters (title similarity, unofficial markers, duration gap), the
    score adjustments (duration penalty, artist confirmation, album bonus) and
    the acceptance threshold of `findSongOnYouTube`.

    The fuzzy matcher (`fuzzball.partial_ratio`) is a parameter `ratio`, so
    every property below holds whatever similarity it reports. */
module Scoring {
  import opened Wrappers
  import opened Text

  /** The wanted song. `album` is "" when the caller gave none; `duration` is
      in milliseconds, 0 when unknown. */
  datatype Song = Song(title: string, album: string, artist: string, albumArtist: string, duration: int)

  /** One search result. `duration` is in seconds (0 when the provider did not
      know it); `link` is the watch URL the video id is cut from. */
  datatype Video = Video(title: string, channel: string, description: Option<string>, duration: int, link: string)

  /** A result that survived scoring: its final score and its video id. */
  datatype Scored = Scored(matchRatio: real, id: string)

  /** The fuzzy similarity of two texts, as the matcher reports it. */
  type Ratio = (string, string) -> int

  const MinTitleRatio := 75
  const MaxDurationGap := 90_000
  const DurationScale := 2000.0
  const UnknownDurationPenalty := 5.0
  const StrongMatch := 85
  const ArtistBonus := 2.0
  const ArtistPenalty := 5.0
  const AlbumBonus := 5.0
  const AcceptScore := 80.0
  const MaxAlbumLength := 40
  const LinkPrefixLength := 28

  // ---------------------------------------------------------------------------
  // The search query
  // ---------------------------------------------------------------------------

  /** The album is worth adding to the query: given, not just the artist's
      name again, and at most 40 characters long. */
  predicate AlbumHelpsQuery(song: Song) {
    song.album != "" && song.album != song.artist && |song.album| <= MaxAlbumLength
  }

  /** The text sent to the search provider. */
  function BuildQuery(song: Song): (q: string)
    ensures var base := song.title + " " + song.artist;
      && |base| <= |q| && q[..|base|] == base
      && (|q| > |base| <==> AlbumHelpsQuery(song))
      && (|q| > |base| ==> q[|base|..] == " " + song.album)
  {
    var query := song.title + " " + song.artist;
    if AlbumHelpsQuery(song) then query + " " + song.album else query
  }

  // ---------------------------------------------------------------------------
  // The unofficial-marker expression \b(live|remix|mix|cover|unofficial|instrumental|sessions)\b/i
  // ---------------------------------------------------------------------------

  /** The alternatives of the expression, in the order it tries them. */
  const Markers: seq<string> := ["live", "remix", "mix", "cover", "unofficial", "instrumental", "sessions"]

  /** `w` occurs at `p` ignoring case: every character there, lower-cased,
      is the matching letter of `w`. Outside unicode mode the `i` flag folds
      only ASCII letters, which is what `LowerChar` does. */
  predicate FoldedAt(s: string, p: nat, w: string) {
    p + |w| <= |s| && forall i :: 0 <= i < |w| ==> LowerChar(s[p + i]) == w[i]
  }

  /** Word boundaries on both sides of `s[p..p + len]`, whose ends are
      letters. */
  predicate WordBoundedAt(s: string, p: nat, len: nat)
    requires p + len <= |s|
  {
    (p == 0 || !IsWordChar(s[p - 1])) && (p + len == |s| || !IsWordChar(s[p + len]))
  }

  /** The index of the first alternative, from the `k`-th on, that matches
      at `p` as a whole word. */
  function AlternativeAt(s: string, p: nat, k: nat := 0): (r: Option<nat>)
    ensures r.Some? ==> (k <= r.value < |Markers| && p + |Markers[r.value]| <= |s|
      && FoldedAt(s, p, Markers[r.value]) && WordBoundedAt(s, p, |Markers[r.value]|))
    decreases |Markers| - k
  {
    if k >= |Markers| then None
    else if FoldedAt(s, p, Markers[k]) && WordBoundedAt(s, p, |Markers[k]|) then Some(k)
    else AlternativeAt(s, p, k + 1)
  }

  /** The alternatives are tried in order: no match at `p` means that no
      alternative from the `k`-th on matches there as a whole word. */
  lemma {:induction false} NoAlternativeMeansNoMarker(s: string, p: nat, k: nat)
    ensures AlternativeAt(s, p, k).None? <==> forall j :: k <= j < |Markers| ==>
      !(FoldedAt(s, p, Markers[j]) && WordBoundedAt(s, p, |Markers[j]|))
    decreases |Markers| - k
  {
    if k < |Markers| {
      NoAlternativeMeansNoMarker(s, p, k + 1);
    }
  }

  /** Past the end of the title nothing can match: every alternative is a
      non-empty word. */
  lemma NoAlternativePastEnd(s: string, from: nat)
    requires from >= |s|
    ensures forall q :: from <= q ==> AlternativeAt(s, q).None?
  {
    assert forall j :: 0 <= j < |Markers| ==> |Markers[j]| > 0;
  }

  /** The leftmost index at or after `from` where the expression matches. */
  function MarkerPosition(s: string, from: nat := 0): (r: Option<nat>)
    ensures r.Some? ==> from <= r.value < |s| && AlternativeAt(s, r.value).Some?
    ensures r.Some? ==> forall q :: from <= q < r.value ==> AlternativeAt(s, q).None?
    ensures r.None? ==> forall q :: from <= q ==> AlternativeAt(s, q).None?
    decreases |s| - from
  {
    if from >= |s| then
      NoAlternativePastEnd(s, from);
      None
    else
      if AlternativeAt(s, from).Some? then Some(from)
      else
        var r := MarkerPosition(s, from + 1);
        NoneExtends(s, from, if r.Some? then r.value else |s| + 1);
        r
  }

  /** A miss at `from` followed by misses up to `bound` is a run of misses
      from `from` up to `bound`. */
  lemma NoneExtends(s: string, from: nat, bound: nat)
    requires AlternativeAt(s, from).None?
    requires forall q :: from + 1 <= q < bound ==> AlternativeAt(s, q).None?
    ensures forall q :: from <= q < bound ==> AlternativeAt(s, q).None?
  {
  }

  /** `PAT_UNOFFICIAL.exec(s)[0]`: the text of the leftmost match, in the case
      it is written in. */
  function FindMarker(s: string): (r: Option<string>)
    ensures r.None? <==> forall q :: 0 <= q ==> AlternativeAt(s, q).None?
    ensures r.Some? ==> MarkerPosition(s).Some? && var p := MarkerPosition(s).value;
      r.value == s[p..p + |Markers[AlternativeAt(s, p).value]|]
  {
    match MarkerPosition(s)
    case None => None
    case Some(p) =>
      assert AlternativeAt(s, p).Some?;
      Some(s[p..p + |Markers[AlternativeAt(s, p).value]|])
  }

  /** Whatever the expression finds is one of the marker words, up to case. */
  lemma MarkerIsMarkerWord(s: string)
    requires FindMarker(s).Some?
    ensures ToLower(FindMarker(s).value) in Markers
  {
    var p := MarkerPosition(s).value;
    var w := Markers[AlternativeAt(s, p).value];
    assert ToLower(FindMarker(s).value) == w;
  }

  /** The marker filter: the title passes when it has no marker, or when the
      matched text, with its case as written, is part of the song's title. */
  predicate PassesMarkerFilter(videoTitle: string, songTitle: string)
    ensures FindMarker(videoTitle).None? ==> PassesMarkerFilter(videoTitle, songTitle)
    ensures FindMarker(videoTitle).Some? ==>
      (PassesMarkerFilter(videoTitle, songTitle) <==> Contains(songTitle, FindMarker(videoTitle).value))
    ensures !PassesMarkerFilter(videoTitle, songTitle) ==>
      && FindMarker(videoTitle).Some?
      && ToLower(FindMarker(videoTitle).value) in Markers
      && !Contains(songTitle, FindMarker(videoTitle).value)
  {
    match FindMarker(videoTitle)
    case None => true
    case Some(m) =>
      MarkerIsMarkerWord(videoTitle);
      Contains(songTitle, m)
  }

  /** A result titled exactly like the song always passes the marker filter:
      a song whose own title holds "Live" is not refused for it. */
  lemma OwnTitlePassesMarkerFilter(title: string)
    ensures PassesMarkerFilter(title, title)
  {
    match FindMarker(title)
    case None =>
    case Some(m) =>
      var p := MarkerPosition(title).value;
      OccursAtContains(title, m, p);
  }

  // ---------------------------------------------------------------------------
  // The scoring stages, in the order the scorer applies them
  // ---------------------------------------------------------------------------

  function Abs(x: int): nat {
    if x < 0 then -x else x
  }

  /** The distance in milliseconds between the song and the video. */
  function DurationGap(song: Song, video: Video): nat {
    Abs(video.duration * 1000 - song.duration)
  }

  /** The duration stage: reject when both durations are known and more than
      90 s apart, otherwise subtract a penalty of one point per 2 s of gap, or
      5 points when the video's duration is unknown. */
  function DurationStage(song: Song, video: Video, score: real): (r: Option<real>)
    ensures song.duration <= 0 ==> r == Some(score)
    ensures r.None? <==> song.duration > 0 && video.duration > 0 && DurationGap(song, video) > MaxDurationGap
    ensures r.Some? ==> score - 45.0 <= r.value <= score
    ensures r.Some? && song.duration > 0 && video.duration > 0 ==>
      r.value == score - DurationGap(song, video) as real / DurationScale
    ensures song.duration > 0 && video.duration <= 0 ==> r == Some(score - UnknownDurationPenalty)
  {
    if song.duration > 0 then
      var videoMs := video.duration * 1000;
      var gap := Abs(videoMs - song.duration);
      if videoMs > 0 && gap > MaxDurationGap then None
      else if videoMs > 0 then Some(score - gap as real / DurationScale)
      else Some(score - UnknownDurationPenalty)
    else Some(score)
  }

  /** The description as searched: lower-cased, "" when missing. */
  function SearchableDescription(video: Video): (r: string)
    ensures video.description.None? ==> r == ""
    ensures video.description.Some? ==> |r| == |video.description.value|
    ensures forall i :: 0 <= i < |r| ==> !IsUpper(r[i])
  {
    ToLower(video.description.GetOr(""))
  }

  /** The artist stage: +2 when the channel matches the artist strongly;
      otherwise -5 unless the title matches the artist strongly or the
      description names the artist. */
  function ArtistStage(song: Song, video: Video, ratio: Ratio, score: real): (r: real)
    ensures r == score + ArtistBonus || r == score || r == score - ArtistPenalty
    ensures r == score + ArtistBonus <==> ratio(song.artist, video.channel) >= StrongMatch
    ensures r == score - ArtistPenalty <==>
      && ratio(song.artist, video.channel) < StrongMatch
      && ratio(song.artist, video.title) < StrongMatch
      && !Contains(SearchableDescription(video), song.artist)
  {
    if ratio(song.artist, video.channel) < StrongMatch then
      if ratio(song.artist, video.title) < StrongMatch
        && !Contains(SearchableDescription(video), song.artist)
      then score - ArtistPenalty
      else score
    else score + ArtistBonus
  }

  /** The album stage: +5 when an album is given, the score is still below 85,
      and the title matches the album more than strongly or the description
      names it. */
  function AlbumStage(song: Song, video: Video, ratio: Ratio, score: real): (r: real)
    ensures r == score || r == score + AlbumBonus
    ensures r == score + AlbumBonus <==>
      && song.album != ""
      && score < StrongMatch as real
      && (ratio(song.album, video.title) > StrongMatch || Contains(SearchableDescription(video), song.album))
  {
    if song.album != "" && score < StrongMatch as real then
      if ratio(song.album, video.title) > StrongMatch
        || Contains(SearchableDescription(video), song.album)
      then score + AlbumBonus
      else score
    else score
  }

  /** `link.substring(28)`: the id after the fixed-length watch-URL prefix,
      or "" when the link is shorter than that. */
  function VideoId(link: string): (id: string)
    ensures |link| >= LinkPrefixLength ==> link == link[..LinkPrefixLength] + id
    ensures |link| <= LinkPrefixLength ==> id == ""
  {
    if |link| >= LinkPrefixLength then link[LinkPrefixLength..] else ""
  }

  /** The watch-URL prefix that the 28 characters are sized for. */
  const WatchPrefix: string := "https://youtube.com/watch?v="

  /** Cutting the id out of a watch URL gives back the id. */
  lemma VideoIdOfWatchLink(id: string)
    ensures VideoId(WatchPrefix + id) == id
  {
    assert |WatchPrefix| == LinkPrefixLength;
    assert (WatchPrefix + id)[LinkPrefixLength..] == id;
  }

  /** The score after the title, marker and duration stages, or `None` once
      one of them rejects. */
  function GatedScore(song: Song, video: Video, ratio: Ratio): (r: Option<real>)
    ensures r.None? <==>
      || ratio(video.title, song.title) < MinTitleRatio
      || !PassesMarkerFilter(video.title, song.title)
      || (song.duration > 0 && video.duration > 0 && DurationGap(song, video) > MaxDurationGap)
    ensures r.Some? ==> r.value <= ratio(video.title, song.title) as real
    ensures r.Some? && song.duration <= 0 ==> r.value == ratio(video.title, song.title) as real
  {
    var titleRatio := ratio(video.title, song.title);
    if titleRatio < MinTitleRatio then None
    else if !PassesMarkerFilter(video.title, song.title) then None
    else DurationStage(song, video, titleRatio as real)
  }

  /** The score once the artist and album stages have adjusted `gated`: at
      most 5 below it and at most 7 above it. */
  function AdjustedScore(song: Song, video: Video, ratio: Ratio, gated: real): (r: real)
    ensures gated - ArtistPenalty <= r <= gated + ArtistBonus + AlbumBonus
    ensures ratio(song.artist, video.channel) >= StrongMatch ==> r >= gated + ArtistBonus
  {
    AlbumStage(song, video, ratio, ArtistStage(song, video, ratio, gated))
  }

  /** The scorer applied to one search result: `None` for a rejected result
      (`null` in `findSongOnYouTube`), otherwise its final score and id. A result is
      accepted exactly when it passes the three filters and its adjusted
      score reaches 80. */
  function ScoreVideo(song: Song, video: Video, ratio: Ratio): (r: Option<Scored>)
    ensures ratio(video.title, song.title) < MinTitleRatio ==> r.None?
    ensures !PassesMarkerFilter(video.title, song.title) ==> r.None?
    ensures song.duration > 0 && video.duration > 0 && DurationGap(song, video) > MaxDurationGap ==> r.None?
    ensures r.Some? <==>
      GatedScore(song, video, ratio).Some? && AdjustedScore(song, video, ratio, GatedScore(song, video, ratio).value) >= AcceptScore
    ensures r.Some? ==>
      r.value == Scored(AdjustedScore(song, video, ratio, GatedScore(song, video, ratio).value), VideoId(video.link))
    ensures r.Some? ==> r.value.matchRatio >= AcceptScore && r.value.id == VideoId(video.link)
    ensures r.Some? ==> r.value.matchRatio <= ratio(video.title, song.title) as real + ArtistBonus + AlbumBonus
  {
    match GatedScore(song, video, ratio)
    case None => None
    case Some(gated) =>
      var score := AdjustedScore(song, video, ratio, gated);
      if score >= AcceptScore then Some(Scored(score, VideoId(video.link))) else None
  }

  /** A result scoring 90 or more (a "great match") needs a title similarity
      of at least 88, and of at least 90 unless the channel matches the
      artist: the album bonus is only paid below 85, so it can never lift a
      result to 90. */
  lemma GreatMatchNeedsStrongTitle(song: Song, video: Video, ratio: Ratio)
    requires ScoreVideo(song, video, ratio).Some?
    requires ScoreVideo(song, video, ratio).value.matchRatio >= 90.0
    ensures ratio(video.title, song.title) >= 88
    ensures ratio(song.artist, video.channel) < StrongMatch ==> ratio(video.title, song.title) >= 90
  {
    var gated := GatedScore(song, video, ratio).value;
    var afterArtist := ArtistStage(song, video, ratio, gated);
    var final := AlbumStage(song, video, ratio, afterArtist);
    assert final == ScoreVideo(song, video, ratio).value.matchRatio;
  }

  /** A result from a channel that matches the artist strongly is accepted
      when its title is close enough (78), it carries no marker, and the
      song's duration is unknown. */
  lemma ArtistChannelAccepted(song: Song, video: Video, ratio: Ratio)
    requires ratio(video.title, song.title) >= 78
    requires FindMarker(video.title).None?
    requires song.duration <= 0
    requires ratio(song.artist, video.channel) >= StrongMatch
    ensures ScoreVideo(song, video, ratio).Some?
    ensures ScoreVideo(song, video, ratio).value.matchRatio >= ratio(video.title, song.title) as real + ArtistBonus
  {
    var gated := GatedScore(song, video, ratio);
    assert gated == Some(ratio(video.title, song.title) as real);
  }

  /** The description check compares the lower-cased description with the
      artist's name as given, so an artist whose name holds an upper-case
      letter is never confirmed by the description. */
  lemma DescriptionNeverConfirmsCapitalisedArtist(song: Song, video: Video, ratio: Ratio, score: real, i: nat)
    requires i < |song.artist| && IsUpper(song.artist[i])
    requires ratio(song.artist, video.channel) < StrongMatch
    requires ratio(song.artist, video.title) < StrongMatch
    ensures ArtistStage(song, video, ratio, score) == score - ArtistPenalty
  {
    LowerNeverContainsUpper(video.description.GetOr(""), song.artist, i);
  }
}
