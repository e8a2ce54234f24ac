/** The walk over the rows of an artist's release table in
    `discographyFromDiscogs`: header rows switch the current section type,
    every other row becomes one album whose type comes from its format list
    or, failing that, from the section it sits in. */
module Discography {
  import opened Wrappers
  import opened Text

  datatype AlbumType = LP | EP | Single | Other

  /** One table row, as the page's selectors read it: the row's class
      attribute, the text of its header cell, and the texts of its release
      cells (`thumbnailUrl` is the image's `data-src`, absent when the
      attribute is missing). Which of them matter depends on the class. */
  datatype Row = Row(
    className: string,
    section: string,
    title: string,
    thumbnailUrl: Option<string>,
    artist: string,
    recordLabel: string,
    year: string,
    format: string)

  /** One release of the discography; `year` is `undefined` as `None`. */
  datatype Album = Album(
    albumType: AlbumType,
    title: string,
    artist: string,
    recordLabel: string,
    thumbnailUrl: Option<string>,
    year: Option<int>)

  const InitialType := LP

  /** A row whose class contains `credit_header` opens a new section. */
  predicate IsHeader(row: Row) {
    Contains(row.className, "credit_header")
  }

  /** The section type a header text names, if it names a known one. */
  function SectionType(text: string): Option<AlbumType> {
    if text == "Albums" then Some(LP)
    else if text == "Singles & EPs" then Some(EP)
    else if text == "Miscellaneous" then Some(Other)
    else None
  }

  /** The section type a row sets: only header rows naming a known section
      set one. */
  function SetsSection(row: Row): Option<AlbumType> {
    if IsHeader(row) then SectionType(row.section) else None
  }

  // ---------------------------------------------------------------------------
  // One release row
  // ---------------------------------------------------------------------------

  /** `t.slice(1, t.length - 1)`: the text without its first and last
      characters (the parentheses around the format list), "" when the text
      is shorter than two characters. */
  function Unwrap(t: string): (r: string)
    ensures |t| >= 2 ==> t == [t[0]] + r + [t[|t| - 1]]
    ensures |t| < 2 ==> r == ""
  {
    if |t| >= 2 then t[1..|t| - 1] else ""
  }

  const FormatSeparator := ", "

  /** The format names of a release: the unwrapped format text split at
      every ", ". Joining them back gives the unwrapped text, and none holds a
      separator. */
  function Formats(formatText: string): (r: seq<string>)
    ensures |r| >= 1
    ensures Join(r, FormatSeparator) == Unwrap(formatText)
    ensures forall i :: 0 <= i < |r| ==> !Contains(r[i], FormatSeparator)
  {
    JoinSplit(Unwrap(formatText), FormatSeparator);
    Split(Unwrap(formatText), FormatSeparator)
  }

  /** The type of a release: "EP" among its formats makes it an EP, else a
      `7"` or "Single" format makes it a single, else it takes the type of
      its section. */
  function ReleaseType(formats: seq<string>, current: AlbumType): (t: AlbumType)
    ensures "EP" in formats ==> t == EP
    ensures "EP" !in formats && ("7\"" in formats || "Single" in formats) ==> t == Single
    ensures t == current || ("EP" in formats && t == EP) || (("7\"" in formats || "Single" in formats) && t == Single)
    ensures "EP" !in formats && "7\"" !in formats && "Single" !in formats ==> t == current
  {
    if "EP" in formats then EP
    else if "7\"" in formats || "Single" in formats then Single
    else current
  }

  /** `Number.parseInt(year) || undefined`: the parsed year, or `None` when
      parsing gives `NaN` or 0 (both falsy). */
  function YearOf(text: string): (r: Option<int>)
    ensures r.Some? <==> ParseInt(text).Some? && ParseInt(text).value != 0
    ensures r.Some? ==> r.value == ParseInt(text).value && r.value != 0
  {
    match ParseInt(text)
    case None => None
    case Some(y) => if y == 0 then None else Some(y)
  }

  /** A year written as a plain numeral is read back as that year. */
  lemma YearOfNumeral(y: nat)
    requires y > 0
    ensures YearOf(Decimal(y)) == Some(y)
  {
    ParseIntDecimal(y);
  }

  /** The album a release row becomes while the section type is `current`. */
  function ReleaseAlbum(row: Row, current: AlbumType): (a: Album)
    ensures a.title == row.title && a.artist == row.artist && a.recordLabel == row.recordLabel
    ensures a.thumbnailUrl == row.thumbnailUrl
    ensures a.year == YearOf(row.year)
    ensures a.albumType == ReleaseType(Formats(row.format), current)
    ensures a.albumType == current || a.albumType == EP || a.albumType == Single
    ensures "EP" in Formats(row.format) ==> a.albumType == EP
  {
    Album(ReleaseType(Formats(row.format), current), row.title, row.artist, row.recordLabel,
          row.thumbnailUrl, YearOf(row.year))
  }

  // ---------------------------------------------------------------------------
  // The walk
  // ---------------------------------------------------------------------------

  /** No row of `rows` after index `i` sets a section. */
  predicate NoSectionSetAfter(rows: seq<Row>, i: int) {
    forall j :: 0 <= j < |rows| && i < j ==> SetsSection(rows[j]).None?
  }

  /** The section type in force after `rows`: the one named by the last header
      row that names a known section, or LP when there is none. */
  function SectionAfter(rows: seq<Row>): AlbumType
    decreases |rows|
  {
    if |rows| == 0 then InitialType
    else match SetsSection(rows[|rows| - 1])
      case Some(t) => t
      case None => SectionAfter(rows[..|rows| - 1])
  }

  /** The last row that sets a section decides the section type in force. */
  lemma {:induction false} LastSectionHeaderWins(rows: seq<Row>, i: nat)
    requires i < |rows| && SetsSection(rows[i]).Some?
    requires NoSectionSetAfter(rows, i)
    ensures SectionAfter(rows) == SetsSection(rows[i]).value
    decreases |rows|
  {
    var n := |rows| - 1;
    if i < n {
      assert SetsSection(rows[n]).None?;
      var init := rows[..n];
      DropLastKeepsNoSection(rows, i);
      LastSectionHeaderWins(init, i);
      assert SectionAfter(rows) == SectionAfter(init);
    }
  }

  /** Dropping the last row keeps "no section set after `i`". */
  lemma DropLastKeepsNoSection(rows: seq<Row>, i: nat)
    requires i < |rows| - 1 && NoSectionSetAfter(rows, i)
    ensures rows[..|rows| - 1][i] == rows[i]
    ensures NoSectionSetAfter(rows[..|rows| - 1], i)
  {
    var init := rows[..|rows| - 1];
    forall j | 0 <= j < |init| && i < j
      ensures SetsSection(init[j]).None?
    {
      assert init[j] == rows[j];
    }
  }

  /** A header row naming a known section sets that section's type; one
      naming anything else keeps the type in force. */
  lemma HeaderRowSetsSection(before: seq<Row>, header: Row)
    requires IsHeader(header)
    ensures header.section == "Albums" ==> SectionAfter(before + [header]) == LP
    ensures header.section == "Singles & EPs" ==> SectionAfter(before + [header]) == EP
    ensures header.section == "Miscellaneous" ==> SectionAfter(before + [header]) == Other
    ensures header.section !in {"Albums", "Singles & EPs", "Miscellaneous"} ==>
      SectionAfter(before + [header]) == SectionAfter(before)
  {
    assert (before + [header])[..|before|] == before;
  }

  /** Rows that set no section (release rows and headers of unknown
      sections) leave the section type as it was: only header rows affect
      later rows. */
  lemma {:induction false} SectionUnchangedWithoutHeaders(before: seq<Row>, rows: seq<Row>)
    requires forall i :: 0 <= i < |rows| ==> SetsSection(rows[i]).None?
    ensures SectionAfter(before + rows) == SectionAfter(before)
    decreases |rows|
  {
    if |rows| > 0 {
      var init := rows[..|rows| - 1];
      assert (before + rows)[..|before + rows| - 1] == before + init;
      SectionUnchangedWithoutHeaders(before, init);
    } else {
      assert before + rows == before;
    }
  }

  /** Before any header row the section type is LP. */
  lemma LPBeforeAnyHeader(rows: seq<Row>)
    requires forall i :: 0 <= i < |rows| ==> !IsHeader(rows[i])
    ensures SectionAfter(rows) == LP
  {
    SectionUnchangedWithoutHeaders([], rows);
    assert [] + rows == rows;
  }

  /** The indices of the release (non-header) rows, in increasing order. */
  function ReleaseIndices(rows: seq<Row>): (r: seq<nat>)
    ensures forall k :: 0 <= k < |r| ==> r[k] < |rows| && !IsHeader(rows[r[k]])
    ensures forall k, m :: 0 <= k < m < |r| ==> r[k] < r[m]
    ensures forall j :: 0 <= j < |rows| && !IsHeader(rows[j]) ==> j in r
  {
    if |rows| == 0 then []
    else
      var init := ReleaseIndices(rows[..|rows| - 1]);
      if IsHeader(rows[|rows| - 1]) then init else init + [|rows| - 1]
  }

  /** The album the release row at index `j` should become: its fields, with
      the type its formats give under the section in force just before it. */
  function AlbumFor(rows: seq<Row>, j: nat): Album
    requires j < |rows|
  {
    ReleaseAlbum(rows[j], SectionAfter(rows[..j]))
  }

  /** `discographyFromDiscogs` once the page is loaded: walk the rows keeping
      the current section type. Header rows add nothing; each release row,
      in order, adds the album it describes under the section it sits in. */
  method AlbumsFromRows(rows: seq<Row>) returns (albums: seq<Album>)
    ensures |albums| == |ReleaseIndices(rows)|
    ensures forall k :: 0 <= k < |albums| ==> albums[k] == AlbumFor(rows, ReleaseIndices(rows)[k])
  {
    var current := InitialType;
    albums := [];
    var i := 0;
    while i < |rows|
      invariant 0 <= i <= |rows|
      invariant current == SectionAfter(rows[..i])
      invariant |albums| == |ReleaseIndices(rows[..i])|
      invariant forall k :: 0 <= k < |albums| ==> albums[k] == AlbumFor(rows, ReleaseIndices(rows[..i])[k])
    {
      var row := rows[i];
      assert rows[..i + 1][..i] == rows[..i];
      if IsHeader(row) {
        var t := SectionType(row.section);
        if t.Some? {
          current := t.value;
        }
      } else {
        albums := albums + [ReleaseAlbum(row, current)];
      }
      i := i + 1;
    }
    assert rows[..|rows|] == rows;
  }

  /** Every release row gives exactly one album: there are as many albums as
      rows that are not headers. */
  lemma {:induction false} ReleaseCount(rows: seq<Row>)
    ensures |ReleaseIndices(rows)| == |rows| - |HeaderIndices(rows)|
  {
    if |rows| > 0 {
      ReleaseCount(rows[..|rows| - 1]);
    }
  }

  /** The indices of the header rows. */
  function HeaderIndices(rows: seq<Row>): seq<nat> {
    if |rows| == 0 then []
    else
      var init := HeaderIndices(rows[..|rows| - 1]);
      if IsHeader(rows[|rows| - 1]) then init + [|rows| - 1] else init
  }
}
