/** Turning the chosen video into a stream answer: the high/low quality
    choice among the audio-only formats, the expiry taken from the
    low-quality URL, and the shape of the result of `findStream`. */
module Streams {
  import opened Wrappers
  import opened Text
  import opened Expiry
  import opened Scoring
  import opened Choice

  /** An audio-only format: its access URL, its encoding and its bitrate in
      kbps. These are the three fields the answer reports for a stream. */
  datatype Format = Format(url: string, encoding: string, bitrate: int)

  /** What the stream resolver reports for a video: its audio-only formats
      and its length in seconds, as text. */
  datatype VideoInfo = VideoInfo(formats: seq<Format>, lengthSeconds: string)

  /** The answer of `findStream`. `NoStream` is `{highQuality: null,
      lowQuality: null}`; `duration` is `None` where `findStream`
      computes `NaN`. */
  datatype Streams =
    | NoStream
    | Found(id: string, highQuality: Option<Format>, lowQuality: Format,
            duration: Option<int>, expiryDate: int, lifespan: int)

  /** The exceptions that escape `findStream`: the resolver's own error,
      rethrown, and the `TypeError` of reading the URL of a missing format. */
  datatype StreamError = InfoFailed(reason: string) | NoAudioFormat

  const MinLowBitrate := 100

  // ---------------------------------------------------------------------------
  // High and low quality
  // ---------------------------------------------------------------------------

  /** `h` is the format the first loop keeps: the earliest of maximal bitrate. */
  ghost predicate IsHighest(fs: seq<Format>, h: int) {
    && 0 <= h < |fs|
    && (forall j :: 0 <= j < |fs| ==> fs[j].bitrate <= fs[h].bitrate)
    && (forall j :: 0 <= j < h ==> fs[j].bitrate < fs[h].bitrate)
  }

  /** A format the second loop may take as the low quality one. */
  predicate LowEligible(f: Format, top: int) {
    f.bitrate < top && f.bitrate >= MinLowBitrate
  }

  /** `l` is the format the second loop keeps: the earliest eligible one of
      maximal bitrate. */
  ghost predicate IsBestBelow(fs: seq<Format>, top: int, l: int) {
    && 0 <= l < |fs|
    && LowEligible(fs[l], top)
    && (forall j :: 0 <= j < |fs| && LowEligible(fs[j], top) ==> fs[j].bitrate <= fs[l].bitrate)
    && (forall j :: 0 <= j < l && LowEligible(fs[j], top) ==> fs[j].bitrate < fs[l].bitrate)
  }

  /** The first loop: start from the first format and switch to any format of
      strictly higher bitrate. */
  method PickHigh(fs: seq<Format>) returns (h: nat)
    requires |fs| > 0
    ensures IsHighest(fs, h)
  {
    h := 0;
    var i := 0;
    while i < |fs|
      invariant 0 <= i <= |fs| && h < |fs|
      invariant h <= i
      invariant forall j :: 0 <= j < i ==> fs[j].bitrate <= fs[h].bitrate
      invariant forall j :: 0 <= j < h ==> fs[j].bitrate < fs[h].bitrate
    {
      if fs[i].bitrate > fs[h].bitrate {
        h := i;
      }
      i := i + 1;
    }
  }

  /** The second loop: take an eligible format when none is held yet or when
      its bitrate is strictly higher than the one held. */
  method PickLow(fs: seq<Format>, top: int) returns (l: Option<nat>)
    ensures l.Some? ==> IsBestBelow(fs, top, l.value)
    ensures l.None? <==> forall j :: 0 <= j < |fs| ==> !LowEligible(fs[j], top)
  {
    l := None;
    var i := 0;
    while i < |fs|
      invariant 0 <= i <= |fs|
      invariant l.None? ==> forall j :: 0 <= j < i ==> !LowEligible(fs[j], top)
      invariant l.Some? ==> l.value < i && LowEligible(fs[l.value], top)
      invariant l.Some? ==> forall j :: 0 <= j < i && LowEligible(fs[j], top) ==> fs[j].bitrate <= fs[l.value].bitrate
      invariant l.Some? ==> forall j :: 0 <= j < l.value && LowEligible(fs[j], top) ==> fs[j].bitrate < fs[l.value].bitrate
    {
      if (l.None? || fs[i].bitrate > fs[l.value].bitrate) && LowEligible(fs[i], top) {
        l := Some(i);
      }
      i := i + 1;
    }
  }

  /** The streams offered: an optional high quality one and a low quality
      one that is always there. */
  datatype Selection = Selection(high: Option<Format>, low: Format)

  /** `sel` is what the two loops and the final swap of `findStream` give for
      `fs`. With a high quality stream, it is the highest format and the low
      quality one is the best format in [100, high). Without one, no format
      qualifies below the highest, which is offered as the low quality
      stream. */
  ghost predicate IsSelection(fs: seq<Format>, sel: Selection) {
    && sel.low in fs
    && (sel.high.Some? ==>
          && sel.high.value in fs
          && (forall f :: f in fs ==> f.bitrate <= sel.high.value.bitrate)
          && MinLowBitrate <= sel.low.bitrate < sel.high.value.bitrate
          && (forall f :: f in fs && LowEligible(f, sel.high.value.bitrate) ==> f.bitrate <= sel.low.bitrate))
    && (sel.high.None? ==>
          && (forall f :: f in fs ==> f.bitrate <= sel.low.bitrate)
          && (forall f :: f in fs ==> !LowEligible(f, sel.low.bitrate)))
    && (exists h :: (IsHighest(fs, h) &&
          match sel.high
          case None => sel.low == fs[h]
          case Some(hq) => hq == fs[h] && exists l :: IsBestBelow(fs, hq.bitrate, l) && sel.low == fs[l]))
  }

  /** The quality choice of `findStream`, including its final swap: with no
      eligible low quality format, the highest one becomes the low quality
      stream and there is no high quality one. `None` stands for the empty
      format list, where `findStream` is left without a low quality format. */
  method SelectFormats(fs: seq<Format>) returns (sel: Option<Selection>)
    ensures sel.None? <==> |fs| == 0
    ensures sel.Some? ==> IsSelection(fs, sel.value)
  {
    if |fs| == 0 {
      return None;
    }
    var h := PickHigh(fs);
    var l := PickLow(fs, fs[h].bitrate);
    if l.None? {
      sel := Some(Selection(None, fs[h]));
    } else {
      sel := Some(Selection(Some(fs[h]), fs[l.value]));
    }
  }

  /** With 320, 128 and 64 kbps formats, 320 is the high quality stream and
      128 the low quality one. */
  method ThreeFormatsExample() {
    var f320 := Format("u320", "opus", 320);
    var f128 := Format("u128", "opus", 128);
    var f64 := Format("u64", "opus", 64);
    var sel := SelectFormats([f320, f128, f64]);
    assert sel.value.high == Some(f320) && sel.value.low == f128 by {
      assert f320 in [f320, f128, f64] && f128 in [f320, f128, f64];
    }
  }

  /** A single format is offered as the low quality stream alone. */
  method SingleFormatExample() {
    var f320 := Format("u320", "opus", 320);
    var sel := SelectFormats([f320]);
    assert sel == Some(Selection(None, f320));
  }

  /** 80 kbps is too low to be the low quality partner of 320 kbps, so 320
      becomes the low quality stream and there is no high quality one. */
  method TooLowPartnerExample() {
    var f320 := Format("u320", "opus", 320);
    var f80 := Format("u80", "opus", 80);
    var sel := SelectFormats([f320, f80]);
    assert sel.value.high.None? && sel.value.low == f320 by {
      assert f320 in [f320, f80];
    }
  }

  // ---------------------------------------------------------------------------
  // The answer
  // ---------------------------------------------------------------------------

  /** `Number.parseInt(length) * 1000`: the length in milliseconds, a whole
      number of seconds; `None` is `NaN`. */
  function LengthMs(lengthSeconds: string): (r: Option<int>)
    ensures r.None? <==> ParseInt(lengthSeconds).None?
    ensures r.Some? ==> r.value == 1000 * ParseInt(lengthSeconds).value
  {
    match ParseInt(lengthSeconds)
    case None => None
    case Some(s) => Some(s * 1000)
  }

  /** A length written as a plain numeral of seconds gives that many
      seconds in milliseconds. */
  lemma LengthMsOfNumeral(n: nat)
    ensures LengthMs(Decimal(n)) == Some(n * 1000)
  {
    ParseIntDecimal(n);
  }

  /** The part of `findStream` after the video is chosen. No video, and an
      empty id, give `NoStream`; otherwise the resolver's answer for the id
      is turned into the two streams, the expiry read from the low quality
      URL, and the lifespan left at `now`. */
  method StreamsFor(videoId: Option<string>, getInfo: string -> Result<VideoInfo, string>, now: int)
    returns (r: Result<Streams, StreamError>)
    ensures r == Success(NoStream) <==> videoId.None? || videoId.value == ""
    ensures r.Failure? <==> (videoId.Some? && videoId.value != ""
      && (getInfo(videoId.value).Failure? || getInfo(videoId.value).value.formats == []))
    ensures forall e :: r == Failure(InfoFailed(e)) <==>
      (videoId.Some? && videoId.value != "" && getInfo(videoId.value) == Failure(e))
    ensures r.Success? && r.value.Found? ==>
      && videoId == Some(r.value.id)
      && getInfo(r.value.id).Success?
      && IsSelection(getInfo(r.value.id).value.formats, Selection(r.value.highQuality, r.value.lowQuality))
      && r.value.expiryDate == ExpiryDateFromStreamUrl(r.value.lowQuality.url)
      && r.value.lifespan == r.value.expiryDate - now
      && r.value.duration == LengthMs(getInfo(r.value.id).value.lengthSeconds)
  {
    if videoId.None? || videoId.value == "" {
      return Success(NoStream);
    }
    var id := videoId.value;
    match getInfo(id)
    case Failure(e) =>
      return Failure(InfoFailed(e));
    case Success(info) =>
      var sel := SelectFormats(info.formats);
      if sel.None? {
        return Failure(NoAudioFormat);
      }
      var expiryDate := ExpiryDateFromStreamUrl(sel.value.low.url);
      return Success(Found(id, sel.value.high, sel.value.low, LengthMs(info.lengthSeconds),
                           expiryDate, expiryDate - now));
  }

  /** `findStream`: find the video for the song, then answer with its
      streams. */
  method FindStream(song: Song, search: string -> seq<Video>, ratio: Ratio,
                    getInfo: string -> Result<VideoInfo, string>, now: int)
    returns (r: Result<Streams, StreamError>)
    ensures var videos := search(BuildQuery(song));
      (forall i :: 0 <= i < |videos| ==> ScoreVideo(song, videos[i], ratio).None?) ==> r == Success(NoStream)
    ensures var s := Survivors(ScoreAll(song, search(BuildQuery(song)), ratio));
      r == Success(NoStream) <==> s == [] || exists k :: IsPick(s, k) && s[k].id == ""
    ensures var s := Survivors(ScoreAll(song, search(BuildQuery(song)), ratio));
      r.Failure? <==> exists k :: (IsPick(s, k) && s[k].id != ""
        && (getInfo(s[k].id).Failure? || getInfo(s[k].id).value.formats == []))
    ensures var scored := ScoreAll(song, search(BuildQuery(song)), ratio);
      r.Success? && r.value.Found? ==>
        && (exists k :: IsPick(Survivors(scored), k) && r.value.id == Survivors(scored)[k].id)
        && getInfo(r.value.id).Success?
        && IsSelection(getInfo(r.value.id).value.formats, Selection(r.value.highQuality, r.value.lowQuality))
        && r.value.expiryDate == ExpiryDateFromStreamUrl(r.value.lowQuality.url)
        && r.value.lifespan == r.value.expiryDate - now
        && r.value.duration == LengthMs(getInfo(r.value.id).value.lengthSeconds)
  {
    var id := FindSongOnYouTube(song, search, ratio);
    r := StreamsFor(id, getInfo, now);
    ghost var s := Survivors(ScoreAll(song, search(BuildQuery(song)), ratio));
    if id.Some? {
      // The chosen id is the only pick, so every statement about "the pick"
      // is a statement about `id`.
      ghost var k0 :| IsPick(s, k0) && id.value == s[k0].id;
      forall k | IsPick(s, k)
        ensures s[k].id == id.value
      {
        PickIsUnique(s, k, k0);
      }
    }
  }
}
