/** Choosing among the results that survived scoring: the first one scoring
    90 or more, otherwise the earliest one with the highest score. */
module Choice {
  import opened Wrappers
  import opened Scoring

  const GreatMatch := 90.0

  /** `choices.filter(x => x !== null)`: the surviving results, in order. */
  function Survivors(scored: seq<Option<Scored>>): (s: seq<Scored>)
    ensures |s| <= |scored|
    ensures forall c :: c in s <==> Some(c) in scored
  {
    if |scored| == 0 then []
    else
      var rest := Survivors(scored[1..]);
      assert forall c :: Some(c) in scored <==> Some(c) == scored[0] || Some(c) in scored[1..];
      match scored[0]
      case None => rest
      case Some(c) => [c] + rest
  }

  /** Filtering distributes over concatenation: survivors keep the order of
      the scored results. */
  lemma {:induction false} SurvivorsAppend(a: seq<Option<Scored>>, b: seq<Option<Scored>>)
    ensures Survivors(a + b) == Survivors(a) + Survivors(b)
  {
    if |a| == 0 {
      assert a + b == b;
    } else {
      assert (a + b)[1..] == a[1..] + b;
      SurvivorsAppend(a[1..], b);
    }
  }

  /** `k` is the survivor the chooser returns: the first great match, or,
      when there is none, the earliest survivor with the highest score. */
  ghost predicate IsPick(s: seq<Scored>, k: int) {
    && 0 <= k < |s|
    && (|| (s[k].matchRatio >= GreatMatch && forall j :: 0 <= j < k ==> s[j].matchRatio < GreatMatch)
        || (&& (forall j :: 0 <= j < |s| ==> s[j].matchRatio < GreatMatch)
            && (forall j :: 0 <= j < |s| ==> s[j].matchRatio <= s[k].matchRatio)
            && (forall j :: 0 <= j < k ==> s[j].matchRatio < s[k].matchRatio)))
  }

  /** The rule picks at most one survivor. */
  lemma PickIsUnique(s: seq<Scored>, k1: int, k2: int)
    requires IsPick(s, k1) && IsPick(s, k2)
    ensures k1 == k2
  {
  }

  /** `validChoices.find(choice => choice.matchRatio >= 90)`, as an index. */
  method FirstGreat(s: seq<Scored>) returns (k: Option<nat>)
    ensures k.Some? ==> k.value < |s| && s[k.value].matchRatio >= GreatMatch
    ensures k.Some? ==> forall j :: 0 <= j < k.value ==> s[j].matchRatio < GreatMatch
    ensures k.None? ==> forall j :: 0 <= j < |s| ==> s[j].matchRatio < GreatMatch
  {
    var i := 0;
    while i < |s|
      invariant 0 <= i <= |s|
      invariant forall j :: 0 <= j < i ==> s[j].matchRatio < GreatMatch
    {
      if s[i].matchRatio >= GreatMatch {
        return Some(i);
      }
      i := i + 1;
    }
    return None;
  }

  /** The loop that keeps the best survivor so far, replacing it only by a
      strictly higher score: the earliest survivor of maximal score. */
  method EarliestBest(s: seq<Scored>) returns (best: nat)
    requires |s| > 0
    ensures best < |s|
    ensures forall j :: 0 <= j < |s| ==> s[j].matchRatio <= s[best].matchRatio
    ensures forall j :: 0 <= j < best ==> s[j].matchRatio < s[best].matchRatio
  {
    best := 0;
    var i := 0;
    while i < |s|
      invariant 0 <= i <= |s| && best < |s|
      invariant best <= i
      invariant forall j :: 0 <= j < i ==> s[j].matchRatio <= s[best].matchRatio
      invariant forall j :: 0 <= j < best ==> s[j].matchRatio < s[best].matchRatio
    {
      if s[i].matchRatio > s[best].matchRatio {
        best := i;
      }
      i := i + 1;
    }
  }

  /** The choice made by `findSongOnYouTube` once every result is scored:
      `None` when nothing survived, otherwise the id of the picked survivor. */
  method ChooseVideo(scored: seq<Option<Scored>>) returns (id: Option<string>)
    ensures id.None? <==> Survivors(scored) == []
    ensures id.Some? ==> exists k :: IsPick(Survivors(scored), k) && id.value == Survivors(scored)[k].id
  {
    var valid := Survivors(scored);
    if |valid| == 0 {
      return None;
    }
    var first := FirstGreat(valid);
    var k: nat;
    if first.Some? {
      k := first.value;
    } else {
      k := EarliestBest(valid);
    }
    assert IsPick(valid, k);
    return Some(valid[k].id);
  }

  /** Every search result scored, in order (`findSongOnYouTube` scores them
      concurrently, but each score depends on its own result only). */
  function ScoreAll(song: Song, videos: seq<Video>, ratio: Ratio): (r: seq<Option<Scored>>)
    ensures |r| == |videos|
    ensures forall i :: 0 <= i < |videos| ==> r[i] == ScoreVideo(song, videos[i], ratio)
  {
    seq(|videos|, i requires 0 <= i < |videos| => ScoreVideo(song, videos[i], ratio))
  }

  /** A survivor of the scored search results is an accepted result, and its
      id is cut from that result's link. */
  lemma SurvivorComesFromVideo(song: Song, videos: seq<Video>, ratio: Ratio, c: Scored)
    requires c in Survivors(ScoreAll(song, videos, ratio))
    ensures exists i :: (0 <= i < |videos| && ScoreVideo(song, videos[i], ratio) == Some(c)
      && c.id == VideoId(videos[i].link))
  {
    var scored := ScoreAll(song, videos, ratio);
    assert Some(c) in scored;
    var i :| 0 <= i < |scored| && scored[i] == Some(c);
    assert ScoreVideo(song, videos[i], ratio) == Some(c);
  }

  /** `findSongOnYouTube`: search with the built query, score every result
      and choose among the survivors. `search` stands for the search
      provider. */
  method FindSongOnYouTube(song: Song, search: string -> seq<Video>, ratio: Ratio) returns (id: Option<string>)
    ensures var videos := search(BuildQuery(song));
      id.None? <==> forall i :: 0 <= i < |videos| ==> ScoreVideo(song, videos[i], ratio).None?
    ensures var videos := search(BuildQuery(song));
      id.Some? ==> exists i :: (0 <= i < |videos| && ScoreVideo(song, videos[i], ratio).Some?
        && id.value == VideoId(videos[i].link))
    ensures var scored := ScoreAll(song, search(BuildQuery(song)), ratio);
      id.None? <==> Survivors(scored) == []
    ensures var scored := ScoreAll(song, search(BuildQuery(song)), ratio);
      id.Some? ==> exists k :: IsPick(Survivors(scored), k) && id.value == Survivors(scored)[k].id
  {
    var videos := search(BuildQuery(song));
    var scored := ScoreAll(song, videos, ratio);
    id := ChooseVideo(scored);
    if id.None? {
      forall i | 0 <= i < |videos|
        ensures ScoreVideo(song, videos[i], ratio).None?
      {
        assert scored[i] == ScoreVideo(song, videos[i], ratio);
        assert scored[i] in scored;
      }
    } else {
      ghost var k :| IsPick(Survivors(scored), k) && id.value == Survivors(scored)[k].id;
      SurvivorComesFromVideo(song, videos, ratio, Survivors(scored)[k]);
    }
    assert (forall i :: 0 <= i < |videos| ==> ScoreVideo(song, videos[i], ratio).None?) ==> Survivors(scored) == [] by {
      if Survivors(scored) != [] {
        var c := Survivors(scored)[0];
        assert Some(c) in scored;
      }
    }
  }
}
