/** Reading the expiry time out of a stream access URL: the regular
    expression `\bexpire=(\d+)\b` is searched for, and its digits, read as
    seconds, are turned into milliseconds. */
module Expiry {
  import opened Wrappers
  import opened Text

  const Key: string := "expire="

  /** The digits the expression captures when it matches at index `p`.
      The match needs a word boundary before the key, at least one digit after
      it, and a word boundary after the digits. `\d+` is greedy, and giving
      digits back cannot help: a boundary never lies between two digits. So
      the expression matches at `p` exactly when the longest digit run is
      followed by a non-word character or the end of the URL, and that run is
      the capture. */
  function TokenAt(url: string, p: nat): (r: Option<string>)
    ensures r.Some? ==> OccursAt(url, Key, p) && (p == 0 || !IsWordChar(url[p - 1]))
    ensures r.Some? ==> |r.value| > 0 && forall i :: 0 <= i < |r.value| ==> IsDigit(r.value[i])
    ensures r.Some? ==> var e := p + |Key| + |r.value|;
      e <= |url| && url[p + |Key|..e] == r.value && (e == |url| || !IsWordChar(url[e]))
  {
    if OccursAt(url, Key, p) && (p == 0 || !IsWordChar(url[p - 1])) then
      var ds := LeadingDigits(url[p + |Key|..], 10);
      var end := p + |Key| + |ds|;
      if |ds| > 0 && (end == |url| || !IsWordChar(url[end])) then
        assert forall i :: 0 <= i < |ds| ==> DigitIn(ds[i], 10).Some?;
        Some(ds)
      else None
    else None
  }

  /** Conversely, the key with a boundary before it, followed by a non-empty
      run of digits that ends at a non-word character or at the end of the
      URL, is a match whose capture is that run. */
  lemma TokenAtDigitRun(url: string, p: nat, ds: string)
    requires OccursAt(url, Key, p) && (p == 0 || !IsWordChar(url[p - 1]))
    requires |ds| > 0 && forall i :: 0 <= i < |ds| ==> IsDigit(ds[i])
    requires p + |Key| + |ds| <= |url| && url[p + |Key|..p + |Key| + |ds|] == ds
    requires p + |Key| + |ds| == |url| || !IsWordChar(url[p + |Key| + |ds|])
    ensures TokenAt(url, p) == Some(ds)
  {
    var e := p + |Key| + |ds|;
    assert url[p + |Key|..] == ds + url[e..];
    LeadingDigitsOfNumeral(ds, url[e..]);
  }

  /** The leftmost index at or after `from` where the expression matches. */
  function FindToken(url: string, from: nat): (r: Option<nat>)
    ensures r.Some? ==> from <= r.value && TokenAt(url, r.value).Some?
    ensures r.Some? ==> forall q :: from <= q < r.value ==> TokenAt(url, q).None?
    ensures r.None? ==> forall q :: from <= q ==> TokenAt(url, q).None?
    decreases |url| - from
  {
    if from + |Key| > |url| then
      NoTokenPastEnd(url, from);
      None
    else if TokenAt(url, from).Some? then Some(from)
    else
      var r := FindToken(url, from + 1);
      NoTokenExtends(url, from, if r.Some? then r.value else |url| + 1);
      r
  }

  /** Too close to the end for the key, nothing matches. */
  lemma NoTokenPastEnd(url: string, from: nat)
    requires from + |Key| > |url|
    ensures forall q :: from <= q ==> TokenAt(url, q).None?
  {
    assert forall q :: from <= q ==> !OccursAt(url, Key, q);
  }

  /** A miss at `from` followed by misses up to `bound` is a run of misses
      from `from` up to `bound`. */
  lemma NoTokenExtends(url: string, from: nat, bound: nat)
    requires TokenAt(url, from).None?
    requires forall q :: from + 1 <= q < bound ==> TokenAt(url, q).None?
    ensures forall q :: from <= q < bound ==> TokenAt(url, q).None?
  {
  }

  /** `expiryDateFromStreamUrl`: the captured seconds times 1000, or 0 when
      the URL carries no expiry token. */
  function ExpiryDateFromStreamUrl(url: string): (r: int)
    ensures r >= 0
    ensures (forall p :: TokenAt(url, p).None?) ==> r == 0
    ensures r != 0 ==> Contains(url, Key)
    ensures FindToken(url, 0).Some? ==> r == ValueIn(TokenAt(url, FindToken(url, 0).value).value, 10) * 1000
  {
    match FindToken(url, 0)
    case None => 0
    case Some(p) =>
      var digits := TokenAt(url, p).value;
      ParseIntDigits(digits);
      OccursAtContains(url, Key, p);
      var seconds := ParseInt(digits).value;
      assert seconds == ValueIn(digits, 10);
      seconds * 1000
  }

  /** When the leftmost match of the expression lies at `p`, the expiry is the
      number its digits spell, in milliseconds. */
  lemma ExpiryOfLeftmostToken(url: string, p: nat)
    requires TokenAt(url, p).Some?
    requires forall q :: 0 <= q < p ==> TokenAt(url, q).None?
    ensures ExpiryDateFromStreamUrl(url) == ValueIn(TokenAt(url, p).value, 10) * 1000
  {
    var f := FindToken(url, 0);
    assert f.Some?;
    assert f.value == p;
  }

  /** A longest digit run stops exactly where the numeral ends. */
  /** A leading decimal digit is the first of the leading digits. */
  lemma LeadingDigitsCons(c: char, t: string)
    requires IsDigit(c)
    ensures LeadingDigits([c] + t, 10) == [c] + LeadingDigits(t, 10)
  {
    assert ([c] + t)[1..] == t;
  }

  lemma {:induction false} LeadingDigitsOfNumeral(ds: string, rest: string)
    requires forall i :: 0 <= i < |ds| ==> IsDigit(ds[i])
    requires |rest| == 0 || !IsDigit(rest[0])
    ensures LeadingDigits(ds + rest, 10) == ds
    decreases |ds|
  {
    if |ds| > 0 {
      assert ds + rest == [ds[0]] + (ds[1..] + rest);
      LeadingDigitsCons(ds[0], ds[1..] + rest);
      LeadingDigitsOfNumeral(ds[1..], rest);
      assert ds == [ds[0]] + ds[1..];
    } else {
      assert ds + rest == rest;
    }
  }

  /** The key cannot start inside `base` or at the separator that follows it
      when `base` does not contain it and the separator is not part of it. */
  lemma NoKeyBeforeSeparator(base: string, sep: char, tail: string, p: nat)
    requires !Contains(base, Key)
    requires !IsWordChar(sep) && sep != '='
    requires p <= |base|
    ensures !OccursAt(base + [sep] + tail, Key, p)
    ensures TokenAt(base + [sep] + tail, p).None?
  {
    var url := base + [sep] + tail;
    if p + |Key| <= |base| {
      assert url[..|base|] == base;
      assert url[p..p + |Key|] == url[..|base|][p..p + |Key|];
      assert !OccursAt(base, Key, p);
    } else if p + |Key| <= |url| {
      var k := |base| - p;
      assert url[p..p + |Key|][k] == url[p + k] == sep;
    }
  }

  /** Right after a non-word separator, a key and a numeral form a match
      whose capture is the numeral. */
  lemma TokenAfterSeparator(base: string, sep: char, n: nat, rest: string)
    requires !IsWordChar(sep)
    requires |rest| == 0 || !IsWordChar(rest[0])
    ensures TokenAt(base + [sep] + Key + Decimal(n) + rest, |base| + 1) == Some(Decimal(n))
  {
    var d := Decimal(n);
    var url := base + [sep] + Key + d + rest;
    var p0 := |base| + 1;
    assert url[p0 - 1] == sep;
    assert url[p0..p0 + |Key|] == Key;
    assert url[p0 + |Key|..] == d + rest;
    LeadingDigitsOfNumeral(d, rest);
  }

  /** No match starts inside `base` or at the separator after it. */
  lemma NoTokenBeforeSeparator(base: string, sep: char, tail: string)
    requires !Contains(base, Key)
    requires !IsWordChar(sep) && sep != '='
    ensures forall q :: 0 <= q < |base| + 1 ==> TokenAt(base + [sep] + tail, q).None?
  {
    forall q: nat | q < |base| + 1
      ensures TokenAt(base + [sep] + tail, q).None?
    {
      NoKeyBeforeSeparator(base, sep, tail, q);
    }
  }

  /** Writing an expiry (in seconds) into a URL as a query parameter and
      reading it back gives the expiry in milliseconds, provided nothing
      before the parameter looks like one. */
  lemma {:induction false} ExpiryRoundTrip(base: string, sep: char, n: nat, rest: string)
    requires !Contains(base, Key)
    requires !IsWordChar(sep) && sep != '='
    requires |rest| == 0 || !IsWordChar(rest[0])
    ensures ExpiryDateFromStreamUrl(base + [sep] + Key + Decimal(n) + rest) == n * 1000
  {
    var d := Decimal(n);
    var tail := Key + d + rest;
    assert base + [sep] + tail == base + [sep] + Key + d + rest;
    NoTokenBeforeSeparator(base, sep, tail);
    TokenAfterSeparator(base, sep, n, rest);
    ExpiryOfLeftmostToken(base + [sep] + tail, |base| + 1);
  }
}
