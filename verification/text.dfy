/** The JavaScript string operations the modelled code relies on:
    `includes`, `split`, `toLowerCase` (ASCII letters only), the regular
    expression class `\w`, and `Number.parseInt`. Strings are sequences of
    characters. */
module Text {
  import opened Wrappers

  // ---------------------------------------------------------------------------
  // Substring search: String.prototype.indexOf / includes
  // ---------------------------------------------------------------------------

  /** `needle` occurs in `s` starting at index `p`. */
  predicate OccursAt(s: string, needle: string, p: nat) {
    p + |needle| <= |s| && s[p..p + |needle|] == needle
  }

  /** The leftmost occurrence of `needle` in `s` at or after `from`. */
  function IndexOfFrom(s: string, needle: string, from: nat): (r: Option<nat>)
    ensures r.Some? ==> from <= r.value && OccursAt(s, needle, r.value)
    ensures r.Some? ==> forall q :: from <= q < r.value ==> !OccursAt(s, needle, q)
    ensures r.None? ==> forall q :: from <= q ==> !OccursAt(s, needle, q)
    decreases |s| - from
  {
    if from + |needle| > |s| then None
    else if s[from..from + |needle|] == needle then Some(from)
    else IndexOfFrom(s, needle, from + 1)
  }

  /** `s.includes(needle)`: the needle occurs at some index of `s`. */
  predicate Contains(s: string, needle: string)
    ensures Contains(s, needle) <==> exists p: nat :: OccursAt(s, needle, p)
  {
    var first := IndexOfFrom(s, needle, 0);
    if first.Some? then
      assert OccursAt(s, needle, first.value);
      true
    else false
  }

  /** An occurrence at a known index makes `Contains` true. */
  lemma OccursAtContains(s: string, needle: string, p: nat)
    requires OccursAt(s, needle, p)
    ensures Contains(s, needle)
  {
  }

  // ---------------------------------------------------------------------------
  // Characters
  // ---------------------------------------------------------------------------

  /** A character of the regular expression class `\w` (outside unicode mode),
      which decides where `\b` word boundaries lie. */
  predicate IsWordChar(c: char) {
    ('a' <= c <= 'z') || ('A' <= c <= 'Z') || ('0' <= c <= '9') || c == '_'
  }

  predicate IsUpper(c: char) {
    'A' <= c <= 'Z'
  }

  predicate IsLower(c: char) {
    'a' <= c <= 'z'
  }

  function LowerChar(c: char): (l: char)
    ensures !IsUpper(l)
    ensures IsUpper(c) ==> IsLower(l) && l as int == c as int + 32
    ensures !IsUpper(c) ==> l == c
  {
    if IsUpper(c) then (c as int + 32) as char else c
  }

  /** `s.toLowerCase()`, restricted to ASCII letters. */
  function ToLower(s: string): (r: string)
    ensures |r| == |s|
    ensures forall i :: 0 <= i < |s| ==> r[i] == LowerChar(s[i])
  {
    seq(|s|, i requires 0 <= i < |s| => LowerChar(s[i]))
  }

  /** A lower-cased string never contains an upper-case ASCII letter, so no
      needle holding one can be found in it. */
  lemma LowerNeverContainsUpper(s: string, needle: string, i: nat)
    requires i < |needle| && IsUpper(needle[i])
    ensures !Contains(ToLower(s), needle)
  {
    var t := ToLower(s);
    forall p: nat
      ensures !OccursAt(t, needle, p)
    {
      if p + |needle| <= |t| {
        assert t[p..p + |needle|][i] == t[p + i];
        assert !IsUpper(t[p + i]);
      }
    }
  }

  // ---------------------------------------------------------------------------
  // String.prototype.split with a non-empty separator, and its inverse
  // ---------------------------------------------------------------------------

  /** `s.split(sep)`: the pieces between the leftmost non-overlapping
      occurrences of `sep`. */
  function Split(s: string, sep: string): (r: seq<string>)
    requires |sep| > 0
    ensures |r| >= 1
    ensures forall i :: 0 <= i < |r| ==> !Contains(r[i], sep)
    decreases |s|
  {
    match IndexOfFrom(s, sep, 0)
    case None => [s]
    case Some(i) =>
      PrefixBeforeFirstHasNone(s, sep, i);
      [s[..i]] + Split(s[i + |sep|..], sep)
  }

  /** The text before the leftmost occurrence holds no occurrence. */
  lemma PrefixBeforeFirstHasNone(s: string, sep: string, i: nat)
    requires |sep| > 0
    requires IndexOfFrom(s, sep, 0) == Some(i)
    ensures !Contains(s[..i], sep)
  {
    forall q: nat
      ensures !OccursAt(s[..i], sep, q)
    {
      if q + |sep| <= i {
        assert s[..i][q..q + |sep|] == s[q..q + |sep|];
        assert !OccursAt(s, sep, q);
      }
    }
  }

  /** `parts.join(sep)`. */
  function Join(parts: seq<string>, sep: string): string
    decreases |parts|
  {
    if |parts| == 0 then ""
    else if |parts| == 1 then parts[0]
    else parts[0] + sep + Join(parts[1..], sep)
  }

  /** Splitting loses nothing: joining the pieces back gives the original. */
  lemma {:induction false} JoinSplit(s: string, sep: string)
    requires |sep| > 0
    ensures Join(Split(s, sep), sep) == s
    decreases |s|
  {
    match IndexOfFrom(s, sep, 0)
    case None =>
    case Some(i) =>
      var rest := s[i + |sep|..];
      var tail := Split(rest, sep);
      JoinSplit(rest, sep);
      var parts := [s[..i]] + tail;
      assert Split(s, sep) == parts;
      assert parts[1..] == tail;
      assert Join(parts, sep) == s[..i] + sep + Join(tail, sep);
      assert s[i..i + |sep|] == sep;
      assert s == s[..i] + s[i..i + |sep|] + rest;
  }

  // ---------------------------------------------------------------------------
  // Number.parseInt
  // ---------------------------------------------------------------------------

  /** The characters `parseInt` skips before the number: the WhiteSpace and
      LineTerminator productions of ECMAScript. */
  predicate IsJsSpace(c: char) {
    || c == '\t' || c == '\n' || c == '\U{000B}' || c == '\U{000C}' || c == '\r'
    || c == ' ' || c == '\U{00A0}' || c == '\U{1680}'
    || ('\U{2000}' <= c <= '\U{200A}')
    || c == '\U{2028}' || c == '\U{2029}' || c == '\U{202F}' || c == '\U{205F}'
    || c == '\U{3000}' || c == '\U{FEFF}'
  }

  function TrimStart(s: string): (r: string)
    ensures |r| <= |s| && r == s[|s| - |r|..]
    ensures |r| > 0 ==> !IsJsSpace(r[0])
    ensures forall i :: 0 <= i < |s| - |r| ==> IsJsSpace(s[i])
  {
    if |s| > 0 && IsJsSpace(s[0]) then TrimStart(s[1..]) else s
  }

  /** The value of `c` as a digit of `radix` (10 or 16), if it is one. */
  function DigitIn(c: char, radix: nat): (r: Option<nat>)
    ensures r.Some? ==> r.value < radix
  {
    var v := if '0' <= c <= '9' then c as int - '0' as int
             else if 'a' <= c <= 'z' then c as int - 'a' as int + 10
             else if 'A' <= c <= 'Z' then c as int - 'A' as int + 10
             else 36;
    if v < radix then Some(v) else None
  }

  predicate IsDigit(c: char) {
    '0' <= c <= '9'
  }

  predicate AllDigitsIn(ds: string, radix: nat) {
    forall i :: 0 <= i < |ds| ==> DigitIn(ds[i], radix).Some?
  }

  /** The longest prefix of `s` made of digits of `radix`. */
  function LeadingDigits(s: string, radix: nat): (ds: string)
    ensures |ds| <= |s| && ds == s[..|ds|]
    ensures AllDigitsIn(ds, radix)
    ensures |ds| < |s| ==> DigitIn(s[|ds|], radix).None?
  {
    if |s| == 0 || DigitIn(s[0], radix).None? then ""
    else [s[0]] + LeadingDigits(s[1..], radix)
  }

  /** The number a digit string denotes in `radix`, most significant first. */
  function ValueIn(ds: string, radix: nat): nat
    requires AllDigitsIn(ds, radix)
  {
    if |ds| == 0 then 0
    else ValueIn(ds[..|ds| - 1], radix) * radix + DigitIn(ds[|ds| - 1], radix).value
  }

  /** The text after an optional leading sign, and whether the sign was `-`. */
  function StripSign(t: string): (bool, string)
  {
    if |t| > 0 && t[0] == '-' then (true, t[1..])
    else if |t| > 0 && t[0] == '+' then (false, t[1..])
    else (false, t)
  }

  /** `u` starts with `0x` or `0X`, which makes `parseInt` read base 16. */
  predicate HasHexPrefix(u: string) {
    |u| >= 2 && u[0] == '0' && (u[1] == 'x' || u[1] == 'X')
  }

  /** The value of the longest run of digits of `radix` at the start of `v`,
      or `None` when there is no digit at all. */
  function ReadDigits(v: string, radix: nat): Option<nat> {
    var ds := LeadingDigits(v, radix);
    if |ds| == 0 then None else Some(ValueIn(ds, radix))
  }

  /** `parseInt` once the leading white space is gone: one optional sign,
      then a `0x`/`0X` prefix selects base 16, and the longest run of digits
      that follows is read. */
  function ParseTrimmed(t: string): (r: Option<int>)
    ensures |t| == 0 ==> r.None?
    ensures |t| > 0 && !IsDigit(t[0]) && t[0] != '-' && t[0] != '+' ==> r.None?
    ensures r.Some? && r.value < 0 ==> t[0] == '-'
  {
    var (negative, u) := StripSign(t);
    assert negative ==> |t| > 0 && t[0] == '-';
    assert !negative ==> u == t || (|t| > 0 && t[0] == '+');
    var magnitude := if HasHexPrefix(u) then ReadDigits(u[2..], 16) else ReadDigits(u, 10);
    match magnitude
    case None => None
    case Some(m) =>
      var value: int := if negative then -(m as int) else m;
      Some(value)
  }

  /** `Number.parseInt(s)` with no radix argument; `None` is `NaN`. Leading
      white space is skipped, so an empty or blank text, or one whose first
      other character is not a digit or a sign, gives `NaN`; only a `-` sign
      gives a negative number. */
  function ParseInt(s: string): (r: Option<int>)
    ensures |TrimStart(s)| == 0 ==> r.None?
    ensures var t := TrimStart(s);
      |t| > 0 && !IsDigit(t[0]) && t[0] != '-' && t[0] != '+' ==> r.None?
    ensures r.Some? && r.value < 0 ==> TrimStart(s)[0] == '-'
  {
    ParseTrimmed(TrimStart(s))
  }

  /** The decimal numeral of `n`, without leading zeros. */
  function Decimal(n: nat): (r: string)
    ensures |r| >= 1 && AllDigitsIn(r, 10)
    ensures forall i :: 0 <= i < |r| ==> IsDigit(r[i])
    ensures ValueIn(r, 10) == n
    ensures n > 0 ==> r[0] != '0'
    ensures n == 0 ==> r == "0"
  {
    var d := ['0' + (n % 10) as char];
    if n < 10 then d
    else
      var r := Decimal(n / 10) + d;
      assert r[..|r| - 1] == Decimal(n / 10);
      r
  }

  /** Reading a string of decimal digits gives back its value. */
  lemma ParseIntDigits(ds: string)
    requires |ds| > 0
    requires forall i :: 0 <= i < |ds| ==> IsDigit(ds[i])
    ensures AllDigitsIn(ds, 10)
    ensures !HasHexPrefix(ds) && ReadDigits(ds, 10) == Some(ValueIn(ds, 10))
    ensures ParseInt(ds) == Some(ValueIn(ds, 10))
  {
    assert !IsJsSpace(ds[0]);
    assert TrimStart(ds) == ds;
    assert StripSign(ds) == (false, ds);
    assert !HasHexPrefix(ds) by {
      if |ds| >= 2 {
        assert IsDigit(ds[1]);
      }
    }
    assert LeadingDigits(ds, 10) == ds by {
      var ld := LeadingDigits(ds, 10);
      if |ld| < |ds| {
        assert false;
      }
    }
  }

  /** White space before the number changes nothing. */
  lemma ParseIntSkipsSpace(c: char, s: string)
    requires IsJsSpace(c)
    ensures ParseInt([c] + s) == ParseInt(s)
  {
    assert ([c] + s)[1..] == s;
    assert TrimStart([c] + s) == TrimStart(s);
    assert ParseInt([c] + s) == ParseTrimmed(TrimStart(s));
  }

  /** A minus sign before a numeral negates its value. */
  lemma ParseIntNegative(n: nat)
    ensures ParseInt("-" + Decimal(n)) == Some(-(n as int))
  {
    var d := Decimal(n);
    var t := "-" + d;
    ParseIntDigits(d);
    assert TrimStart(t) == t by {
      assert !IsJsSpace(t[0]);
    }
    assert StripSign(t) == (true, d) by {
      assert t[1..] == d;
    }
  }

  /** `parseInt` reads back every numeral `Decimal` writes. */
  lemma ParseIntDecimal(n: nat)
    ensures ParseInt(Decimal(n)) == Some(n)
  {
    ParseIntDigits(Decimal(n));
  }
}
