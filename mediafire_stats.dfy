/** The per-file fields the MediaFire folder exporter reads off a listing
    entry: the download count and size from the link title or, failing that,
    from the text of the enclosing list item (`parseStats`), the file name
    (the title up to its first comma) and the modification timestamp. */
module MediaFireStats {
  import opened Options
  import opened JsText

  datatype Unit = GB | MB | KB

  /** A size as the page shows it: the numeral and its unit. Its conversion
      to megabytes is floating-point arithmetic and is not part of this
      model; only whether a size was found matters to the rules here. */
  datatype SizeReading = SizeReading(numeral: string, unit: Unit)

  /** What `parseStats` returns. `size` is None where the script keeps
      `size_mb` empty; every size it finds becomes a non-empty string. */
  datatype Stats = Stats(downloads: string, size: Option<SizeReading>)

  predicate IsDigitOrComma(c: char) { IsDigit(c) || c == ',' }

  predicate IsDigitOrDot(c: char) { IsDigit(c) || c == '.' }

  /** The group captured by `/Downloads:\s*([\d,]+)/i` when it matches at `i`. */
  function DownloadsAt(s: string, i: nat): (r: Option<string>)
    ensures r.Some? ==> StartsWithCi(s, i, "downloads:") && r.value != []
    ensures r.Some? ==> forall k | 0 <= k < |r.value| :: IsDigitOrComma(r.value[k])
  {
    if !StartsWithCi(s, i, "downloads:") then None
    else
      var j := RunEnd(s, i + 10, IsSpace);
      var k := RunEnd(s, j, IsDigitOrComma);
      if j < k then Some(s[j..k]) else None
  }

  /** `/Downloads:\s*([\d,]+)/i` matches at `i` with its group at `s[j..k]`:
      the keyword in any case, whitespace up to `j`, then a non-empty run of
      digits and commas up to `k`. */
  predicate IsDownloadsMatch(s: string, i: nat, j: nat, k: nat) {
    && StartsWithCi(s, i, "downloads:")
    && i + 10 <= j < k <= |s|
    && (forall m | i + 10 <= m < j :: IsSpace(s[m]))
    && (forall m | j <= m < k :: IsDigitOrComma(s[m]))
  }

  /** The match a greedy `[\d,]+` makes: its run cannot go on. */
  predicate IsGreedyDownloadsMatch(s: string, i: nat, j: nat, k: nat) {
    IsDownloadsMatch(s, i, j, k) && (k == |s| || !IsDigitOrComma(s[k]))
  }

  /** `DownloadsAt` finds a group exactly when the pattern matches at `i`,
      and the group it finds is the greedy one, which is the only greedy
      match: the whitespace always stops at the first digit or comma. */
  lemma DownloadsAtMatches(s: string, i: nat)
    ensures DownloadsAt(s, i).Some? <==> exists j: nat, k: nat :: IsDownloadsMatch(s, i, j, k)
    ensures DownloadsAt(s, i).Some? ==> exists j: nat, k: nat :: IsGreedyDownloadsMatch(s, i, j, k)
    ensures forall j: nat, k: nat | IsGreedyDownloadsMatch(s, i, j, k) :: DownloadsAt(s, i) == Some(s[j..k])
  {
    if StartsWithCi(s, i, "downloads:") {
      var j0 := RunEnd(s, i + 10, IsSpace);
      var k0 := RunEnd(s, j0, IsDigitOrComma);
      forall j: nat, k: nat | IsDownloadsMatch(s, i, j, k)
        ensures j == j0 && j < k <= k0
      {
        DownloadsRuns(s, i, j, k, j0, k0);
      }
      if j0 < k0 {
        assert IsGreedyDownloadsMatch(s, i, j0, k0);
      }
    }
  }

  /** Any match starts its group where the whitespace run ends, and ends it
      no later than the digit run does. */
  lemma DownloadsRuns(s: string, i: nat, j: nat, k: nat, j0: nat, k0: nat)
    requires IsDownloadsMatch(s, i, j, k)
    requires j0 == RunEnd(s, i + 10, IsSpace) && k0 == RunEnd(s, j0, IsDigitOrComma)
    ensures j == j0 && k <= k0
  {
    assert IsDigitOrComma(s[j]) && !IsSpace(s[j]);
  }

  /** The unit of `(GB|MB|KB)` under the `i` flag at `i`. */
  function UnitAt(s: string, i: nat): Option<Unit> {
    if StartsWithCi(s, i, "gb") then Some(GB)
    else if StartsWithCi(s, i, "mb") then Some(MB)
    else if StartsWithCi(s, i, "kb") then Some(KB)
    else None
  }

  /** The groups captured by `/Size:\s*([\d\.]+)\s*(GB|MB|KB)/i` when it
      matches at `i`. Backtracking cannot help a failed match here: giving
      back digits or spaces leaves a digit, a dot or a space where the unit
      must start. */
  function SizeAt(s: string, i: nat): (r: Option<SizeReading>)
    ensures r.Some? ==> StartsWithCi(s, i, "size:") && r.value.numeral != []
    ensures r.Some? ==> forall k | 0 <= k < |r.value.numeral| :: IsDigitOrDot(r.value.numeral[k])
  {
    if !StartsWithCi(s, i, "size:") then None
    else
      var j := RunEnd(s, i + 5, IsSpace);
      var k := RunEnd(s, j, IsDigitOrDot);
      var l := RunEnd(s, k, IsSpace);
      if j < k && UnitAt(s, l).Some? then Some(SizeReading(s[j..k], UnitAt(s, l).value)) else None
  }

  /** The unit word as the pattern spells it, in lower case. */
  function UnitWord(u: Unit): string {
    match u
    case GB => "gb"
    case MB => "mb"
    case KB => "kb"
  }

  /** `/Size:\s*([\d\.]+)\s*(GB|MB|KB)/i` matches at `i` with group 1 at
      `s[j..k]` and group 2 the unit `u` starting at `l`. */
  predicate IsSizeMatch(s: string, i: nat, j: nat, k: nat, l: nat, u: Unit) {
    && StartsWithCi(s, i, "size:")
    && i + 5 <= j < k <= l <= |s|
    && (forall m | i + 5 <= m < j :: IsSpace(s[m]))
    && (forall m | j <= m < k :: IsDigitOrDot(s[m]))
    && (forall m | k <= m < l :: IsSpace(s[m]))
    && StartsWithCi(s, l, UnitWord(u))
  }

  /** `SizeAt` finds the groups exactly when the pattern matches at `i`, and
      there is only one way to match: each run must stop where the next part
      of the pattern can start. */
  lemma SizeAtMatches(s: string, i: nat)
    ensures SizeAt(s, i).Some? <==> exists j: nat, k: nat, l: nat, u :: IsSizeMatch(s, i, j, k, l, u)
    ensures forall j: nat, k: nat, l: nat, u | IsSizeMatch(s, i, j, k, l, u) :: SizeAt(s, i) == Some(SizeReading(s[j..k], u))
  {
    if StartsWithCi(s, i, "size:") {
      var j0 := RunEnd(s, i + 5, IsSpace);
      var k0 := RunEnd(s, j0, IsDigitOrDot);
      var l0 := RunEnd(s, k0, IsSpace);
      forall j: nat, k: nat, l: nat, u | IsSizeMatch(s, i, j, k, l, u)
        ensures j == j0 && k == k0 && l == l0 && UnitAt(s, l) == Some(u)
      {
        SizeRuns(s, i, j, k, l, u, j0, k0, l0);
      }
      if j0 < k0 && UnitAt(s, l0).Some? {
        UnitAtWord(s, l0);
        assert IsSizeMatch(s, i, j0, k0, l0, UnitAt(s, l0).value);
      }
    }
  }

  /** The unit found at `l` is the one whose word starts there. */
  lemma UnitAtWord(s: string, l: nat)
    ensures forall u | StartsWithCi(s, l, UnitWord(u)) :: UnitAt(s, l) == Some(u)
    ensures UnitAt(s, l).Some? ==> StartsWithCi(s, l, UnitWord(UnitAt(s, l).value))
  {
  }

  /** A unit word starts with a letter, so never at a digit, a dot or a
      space. */
  lemma UnitStartsWithLetter(s: string, l: nat, u: Unit)
    ensures StartsWithCi(s, l, UnitWord(u)) ==> l < |s| && !IsDigitOrDot(s[l]) && !IsSpace(s[l])
  {
    if l + 2 <= |s| {
      assert LowerString(s[l..l + 2])[0] == ToLower(s[l]);
    }
  }

  /** The only match of the size pattern is the one made of the longest
      runs. */
  lemma SizeRuns(s: string, i: nat, j: nat, k: nat, l: nat, u: Unit, j0: nat, k0: nat, l0: nat)
    requires IsSizeMatch(s, i, j, k, l, u)
    requires j0 == RunEnd(s, i + 5, IsSpace)
    requires k0 == RunEnd(s, j0, IsDigitOrDot)
    requires l0 == RunEnd(s, k0, IsSpace)
    ensures j == j0 && k == k0 && l == l0 && UnitAt(s, l) == Some(u)
  {
    assert IsDigitOrDot(s[j]) && !IsSpace(s[j]);
    assert j == j0;
    UnitStartsWithLetter(s, l, u);
    assert !IsDigitOrDot(s[k]) && !IsSpace(s[l]);
    assert k == k0;
    assert l == l0;
    UnitAtWord(s, l);
  }

  /** `s.match(/Downloads:\s*([\d,]+)/i)`, its group 1. */
  function MatchDownloads(s: string): (r: Option<string>)
    ensures r.Some? ==> exists i | 0 <= i <= |s| :: DownloadsAt(s, i) == r
                          && forall j | 0 <= j < i :: DownloadsAt(s, j).None?
    ensures r.None? ==> forall i | 0 <= i <= |s| :: DownloadsAt(s, i).None?
  {
    var p := Leftmost(s, DownloadsAt, 0);
    if p.Some? then DownloadsAt(s, p.value) else None
  }

  /** `s.match(/Size:\s*([\d\.]+)\s*(GB|MB|KB)/i)`, its groups 1 and 2. */
  function MatchSize(s: string): (r: Option<SizeReading>)
    ensures r.Some? ==> exists i | 0 <= i <= |s| :: SizeAt(s, i) == r
                          && forall j | 0 <= j < i :: SizeAt(s, j).None?
    ensures r.None? ==> forall i | 0 <= i <= |s| :: SizeAt(s, i).None?
  {
    var p := Leftmost(s, SizeAt, 0);
    if p.Some? then SizeAt(s, p.value) else None
  }

  /** `s.replace(/,/g, '')` */
  function RemoveCommas(s: string): (r: string)
    ensures |r| <= |s|
    ensures forall k | 0 <= k < |r| :: r[k] != ',' && r[k] in s
    ensures forall c | c in s && c != ',' :: c in r
    ensures |s| == 1 ==> r == if s[0] == ',' then [] else s
  {
    if s == [] then []
    else if s[0] == ',' then RemoveCommas(s[1..])
    else [s[0]] + RemoveCommas(s[1..])
  }

  /** Removing commas works piece by piece: with the one-character cases,
      this fixes the result as the input with every comma taken out and the
      other characters kept, in order. */
  lemma {:induction false} RemoveCommasAppend(a: string, b: string)
    ensures RemoveCommas(a + b) == RemoveCommas(a) + RemoveCommas(b)
  {
    if a == [] {
      assert a + b == b;
    } else {
      assert (a + b)[1..] == a[1..] + b;
      RemoveCommasAppend(a[1..], b);
    }
  }

  predicate AllDigits(s: string) {
    forall k | 0 <= k < |s| :: IsDigit(s[k])
  }

  /** The download count a text gives: the digits of the first match, commas
      dropped; None when there is no match. */
  function DownloadsIn(s: string): (r: Option<string>)
    ensures r.Some? ==> AllDigits(r.value)
    ensures r.Some? <==> MatchDownloads(s).Some?
    ensures r.Some? ==> r.value == RemoveCommas(MatchDownloads(s).value)
  {
    var m := MatchDownloads(s);
    if m.Some? then Some(RemoveCommas(m.value)) else None
  }

  /** `parseStats(fullTitle, liText)`. The title is read first; when it
      leaves the download count empty or finds no size, every match in the
      list item's text overwrites the title's value, even a non-empty one. */
  function ParseStats(fullTitle: string, liText: string): Stats
  {
    var fromTitle :=
      if fullTitle != "" then Stats(DownloadsIn(fullTitle).GetOr(""), MatchSize(fullTitle))
      else Stats("", None);
    if fromTitle.downloads == "" || fromTitle.size.None? then
      Stats(if DownloadsIn(liText).Some? then DownloadsIn(liText).value else fromTitle.downloads,
            if MatchSize(liText).Some? then MatchSize(liText) else fromTitle.size)
    else fromTitle
  }

  /** Every value found comes from a match in the title or in the list
      item's text: a non-empty count is the count of one of them, a size
      the size of one of them. */
  lemma ParseStatsSources(fullTitle: string, liText: string)
    ensures var r := ParseStats(fullTitle, liText);
      && (r.downloads == "" || Some(r.downloads) == DownloadsIn(fullTitle) || Some(r.downloads) == DownloadsIn(liText))
      && (r.size.None? || r.size == MatchSize(fullTitle) || r.size == MatchSize(liText))
  {
  }

  /** The download count is empty or all digits. */
  lemma DownloadsAreDigits(fullTitle: string, liText: string)
    ensures AllDigits(ParseStats(fullTitle, liText).downloads)
  {
  }

  /** A title that gives a non-empty count and a size decides both; the list
      item's text is not consulted. */
  lemma TitleSuffices(fullTitle: string, liText: string)
    requires DownloadsIn(fullTitle).Some? && DownloadsIn(fullTitle).value != ""
    requires MatchSize(fullTitle).Some?
    ensures ParseStats(fullTitle, liText) == Stats(DownloadsIn(fullTitle).value, MatchSize(fullTitle))
  {
  }

  /** When the title leaves either field unset, a match in the list item's
      text wins for that field, and also for the other field, even where the
      title had already found it. */
  lemma ListItemOverrides(fullTitle: string, liText: string)
    requires DownloadsIn(fullTitle).GetOr("") == "" || MatchSize(fullTitle).None?
    ensures DownloadsIn(liText).Some? ==> ParseStats(fullTitle, liText).downloads == DownloadsIn(liText).value
    ensures MatchSize(liText).Some? ==> ParseStats(fullTitle, liText).size == MatchSize(liText)
    ensures DownloadsIn(liText).None? ==> ParseStats(fullTitle, liText).downloads == DownloadsIn(fullTitle).GetOr("")
    ensures MatchSize(liText).None? ==> ParseStats(fullTitle, liText).size == MatchSize(fullTitle)
  {
    if fullTitle == "" {
      assert !StartsWithCi(fullTitle, 0, "downloads:");
      assert !StartsWithCi(fullTitle, 0, "size:");
    }
  }

  /** A capture made only of commas leaves the count empty, so the list item
      is consulted even though the title matched. */
  lemma CommasOnlyCaptureIsEmpty(s: string)
    requires MatchDownloads(s).Some?
    requires forall k | 0 <= k < |MatchDownloads(s).value| :: MatchDownloads(s).value[k] == ','
    ensures DownloadsIn(s) == Some("")
  {
    RemoveCommasOfCommas(MatchDownloads(s).value);
  }

  /** Nothing is left of a run of commas. */
  lemma {:induction false} RemoveCommasOfCommas(s: string)
    requires forall k | 0 <= k < |s| :: s[k] == ','
    ensures RemoveCommas(s) == []
  {
    if s != [] {
      RemoveCommasOfCommas(s[1..]);
    }
  }

  /** Such a title exists: `Downloads: ,,` matches and yields an empty count. */
  lemma CommasOnlyCountIsEmpty()
    ensures DownloadsIn("Downloads: ,,") == Some("")
  {
    var s := "Downloads: ,,";
    assert LowerString(s[0..10]) == "downloads:";
    assert IsSpace(s[10]) && !IsSpace(s[11]);
    assert RunEnd(s, 11, IsSpace) == 11;
    assert RunEnd(s, 10, IsSpace) == 11;
    assert RunEnd(s, 13, IsDigitOrComma) == 13;
    assert RunEnd(s, 12, IsDigitOrComma) == 13;
    assert RunEnd(s, 11, IsDigitOrComma) == 13;
    assert StartsWithCi(s, 0, "downloads:");
    assert s[11..13] == ",,";
    assert DownloadsAt(s, 0) == Some(",,");
    assert Leftmost(s, DownloadsAt, 0) == Some(0);
    assert RemoveCommas(",,") == "";
  }

  /** `fullTitle.split(',')[0]`: the title up to its first comma. */
  function BeforeFirstComma(s: string): (r: string)
    ensures |r| <= |s| && r == s[..|r|]
    ensures ',' !in r
    ensures |r| < |s| ==> s[|r|] == ','
  {
    if s == [] || s[0] == ',' then [] else [s[0]] + BeforeFirstComma(s[1..])
  }

  /** The name column: the title up to its first comma, trimmed. */
  function FileName(fullTitle: string): (r: string)
    ensures ',' !in r
    ensures r == [] || (!IsSpace(r[0]) && !IsSpace(r[|r| - 1]))
    ensures r == Trim(BeforeFirstComma(fullTitle))
  {
    Trim(BeforeFirstComma(fullTitle))
  }

  /** A title `name,rest` with no comma in `name` is named `name`, trimmed;
      a title without a comma is just trimmed. */
  lemma FileNameOfTitle(name: string, rest: string)
    requires ',' !in name
    ensures FileName(name + "," + rest) == Trim(name)
    ensures FileName(name) == Trim(name)
  {
    assert name + "," + rest == name + ("," + rest) && name + [] == name;
    BeforeFirstCommaStops(name, "," + rest);
    BeforeFirstCommaStops(name, []);
  }

  /** The title up to its first comma ends where a comma-free prefix meets
      a comma or the end. */
  lemma {:induction false} BeforeFirstCommaStops(name: string, rest: string)
    requires ',' !in name && (rest == [] || rest[0] == ',')
    ensures BeforeFirstComma(name + rest) == name
  {
    if name == [] {
      assert name + rest == rest;
    } else {
      assert (name + rest)[1..] == name[1..] + rest;
      BeforeFirstCommaStops(name[1..], rest);
    }
  }

  /** `/\d{4}-\d{2}-\d{2} \d{2}:\d{2}:\d{2}/` matches at `i`. */
  predicate IsTimestampAt(s: string, i: nat) {
    && i + 19 <= |s|
    && AllDigits(s[i..i + 4]) && s[i + 4] == '-'
    && AllDigits(s[i + 5..i + 7]) && s[i + 7] == '-'
    && AllDigits(s[i + 8..i + 10]) && s[i + 10] == ' '
    && AllDigits(s[i + 11..i + 13]) && s[i + 13] == ':'
    && AllDigits(s[i + 14..i + 16]) && s[i + 16] == ':'
    && AllDigits(s[i + 17..i + 19])
  }

  /** The text the timestamp pattern matches at `i`, if it matches there. */
  function TimestampAt(s: string, i: nat): Option<string> {
    if IsTimestampAt(s, i) then Some(s[i..i + 19]) else None
  }

  /** The modified column: the first timestamp in the list item's text, or
      the empty string. */
  function Modified(liText: string): (r: string)
    ensures r == "" <==> forall i | 0 <= i <= |liText| :: TimestampAt(liText, i).None?
    ensures r != "" ==> exists i | 0 <= i <= |liText| :: TimestampAt(liText, i) == Some(r)
                          && forall j | 0 <= j < i :: TimestampAt(liText, j).None?
  {
    var p := Leftmost(liText, TimestampAt, 0);
    if p.Some? then TimestampAt(liText, p.value).value else ""
  }

  /** The modified column is the text of the first timestamp in the list
      item, or empty when there is none. */
  lemma ModifiedIsFirstTimestamp(liText: string)
    ensures Modified(liText) == "" <==> forall i: nat | i <= |liText| :: !IsTimestampAt(liText, i)
    ensures Modified(liText) != "" ==>
              exists i: nat | IsTimestampAt(liText, i) :: Modified(liText) == liText[i..i + 19]
                && forall j: nat | j < i :: !IsTimestampAt(liText, j)
  {
    assert forall i: nat :: TimestampAt(liText, i).None? <==> !IsTimestampAt(liText, i);
    if Modified(liText) != "" {
      var i :| 0 <= i <= |liText| && TimestampAt(liText, i) == Some(Modified(liText))
               && forall j | 0 <= j < i :: TimestampAt(liText, j).None?;
      assert IsTimestampAt(liText, i);
    }
  }
}
