/** `toCSV` of the MediaFire folder exporter: a header line and one line per
    file, joined by newlines. Name, URL and modified date are written between
    double quotes with every embedded quote doubled; the download count and
    the size are written as they are. A reader for such lines is given beside
    the writer, and the lines are shown to read back to the items written. */
module MediaFireCsv {
  import opened Options
  import opened TextJoin

  /** One collected file: the columns of a CSV line. */
  datatype Item = Item(name: string, downloads: string, sizeMb: string, url: string, modified: string)

  const Header := "name,downloads,size_mb,url,modified"

  function CountOf(s: string, c: char): (n: nat)
    ensures n <= |s|
  {
    if s == [] then 0 else (if s[0] == c then 1 else 0) + CountOf(s[1..], c)
  }

  /** `s.replace(/"/g, '""')` */
  function DoubleQuotes(s: string): (r: string)
    ensures |r| == |s| + CountOf(s, '"')
    ensures forall c | c in r :: c in s
  {
    if s == [] then [] else QuoteHead(s[0]) + DoubleQuotes(s[1..])
  }

  /** What one character becomes: a quote is doubled. */
  function QuoteHead(c: char): string {
    if c == '"' then "\"\"" else [c]
  }

  function Quoted(s: string): string {
    "\"" + DoubleQuotes(s) + "\""
  }

  /** The line of one item: `"name",downloads,size_mb,"url","modified"`. */
  function Row(it: Item): string {
    Quoted(it.name) + "," + it.downloads + "," + it.sizeMb + "," + Quoted(it.url) + "," + Quoted(it.modified)
  }

  function Rows(items: seq<Item>): (r: seq<string>)
    ensures |r| == |items|
    ensures forall i | 0 <= i < |items| :: r[i] == Row(items[i])
  {
    seq(|items|, i requires 0 <= i < |items| => Row(items[i]))
  }

  /** `toCSV(items)`: the header, then one line per item, in order. */
  method ToCSV(items: seq<Item>) returns (csv: string)
    ensures csv == Join([Header] + Rows(items), "\n")
  {
    var lines := [Header];
    for i := 0 to |items|
      invariant lines == [Header] + Rows(items[..i])
    {
      lines := lines + [Row(items[i])];
    }
    assert items[..|items|] == items;
    csv := Join(lines, "\n");
  }

  // ---- Reading the output back ----

  /** `s.split(sep)` */
  function Split(s: string, sep: char): (r: seq<string>)
    ensures |r| >= 1
  {
    if s == [] then [""]
    else
      var rest := Split(s[1..], sep);
      if s[0] == sep then [""] + rest else [[s[0]] + rest[0]] + rest[1..]
  }

  lemma {:induction false} SplitNoSep(a: string, sep: char)
    requires sep !in a
    ensures Split(a, sep) == [a]
  {
    if a != [] {
      SplitNoSep(a[1..], sep);
      assert [a[0]] + a[1..] == a;
    }
  }

  lemma {:induction false} SplitAtSep(a: string, sep: char, b: string)
    requires sep !in a
    ensures Split(a + [sep] + b, sep) == [a] + Split(b, sep)
  {
    if a == [] {
      assert a + [sep] + b == [sep] + b;
      assert ([sep] + b)[1..] == b;
    } else {
      SplitAtSep(a[1..], sep, b);
      assert (a + [sep] + b)[1..] == a[1..] + [sep] + b;
      assert [a[0]] + a[1..] == a;
    }
  }

  /** Splitting at the separator undoes the join of lines that do not
      contain it. */
  lemma {:induction false} SplitJoin(lines: seq<string>, sep: char)
    requires lines != []
    requires forall i | 0 <= i < |lines| :: sep !in lines[i]
    ensures Split(Join(lines, [sep]), sep) == lines
  {
    if |lines| == 1 {
      SplitNoSep(lines[0], sep);
    } else {
      SplitJoin(lines[1..], sep);
      SplitAtSep(lines[0], sep, Join(lines[1..], [sep]));
      assert [lines[0]] + lines[1..] == lines;
    }
  }

  predicate NoNewline(it: Item) {
    '\n' !in it.name && '\n' !in it.downloads && '\n' !in it.sizeMb
    && '\n' !in it.url && '\n' !in it.modified
  }

  lemma RowHasNoNewline(it: Item)
    requires NoNewline(it)
    ensures '\n' !in Row(it)
  {
    assert '\n' !in DoubleQuotes(it.name);
    assert '\n' !in DoubleQuotes(it.url);
    assert '\n' !in DoubleQuotes(it.modified);
  }

  /** The CSV text is the header line followed by exactly one line per item,
      with no trailing newline: split at newlines it gives back the header and
      the items' lines, as long as no field holds a newline itself. With no
      items it is the header alone. */
  lemma CsvLines(items: seq<Item>)
    requires forall i | 0 <= i < |items| :: NoNewline(items[i])
    ensures Split(Join([Header] + Rows(items), "\n"), '\n') == [Header] + Rows(items)
    ensures |Split(Join([Header] + Rows(items), "\n"), '\n')| == |items| + 1
    ensures items == [] ==> Join([Header] + Rows(items), "\n") == Header
  {
    var lines := [Header] + Rows(items);
    forall i | 0 <= i < |lines| ensures '\n' !in lines[i] {
      if i > 0 { RowHasNoNewline(items[i - 1]); }
    }
    SplitJoin(lines, '\n');
  }

  /** Reads a quoted field after its opening quote: `""` stands for one
      quote and a lone quote closes the field. Gives the value and what
      follows the closing quote. */
  function ReadQuotedRest(t: string): Option<(string, string)>
  {
    if t == [] then None
    else if t[0] == '"' then
      if |t| >= 2 && t[1] == '"' then
        var r := ReadQuotedRest(t[2..]);
        if r.None? then None else Some(("\"" + r.value.0, r.value.1))
      else Some(("", t[1..]))
    else
      var r := ReadQuotedRest(t[1..]);
      if r.None? then None else Some(([t[0]] + r.value.0, r.value.1))
  }

  function ReadQuoted(t: string): Option<(string, string)> {
    if t != [] && t[0] == '"' then ReadQuotedRest(t[1..]) else None
  }

  lemma {:induction false} ReadQuotedRestDoubled(s: string, rest: string)
    requires rest == [] || rest[0] != '"'
    ensures ReadQuotedRest(DoubleQuotes(s) + "\"" + rest) == Some((s, rest))
  {
    var t := DoubleQuotes(s) + "\"" + rest;
    if s == [] {
      assert t == "\"" + rest;
      assert t[1..] == rest;
    } else {
      var tail := DoubleQuotes(s[1..]) + "\"" + rest;
      ReadQuotedRestDoubled(s[1..], rest);
      assert ReadQuotedRest(tail) == Some((s[1..], rest));
      DoubledHead(s, rest);
      assert t == QuoteHead(s[0]) + tail;
      if s[0] == '"' {
        assert t[0] == '"' && t[1] == '"' && t[2..] == tail;
        assert "\"" + s[1..] == s;
      } else {
        assert t[0] == s[0] && t[1..] == tail;
        assert [s[0]] + s[1..] == s;
      }
    }
  }

  /** The doubled text starts with the first character, twice if it is a
      quote, and goes on with the doubled remainder. */
  lemma DoubledHead(s: string, rest: string)
    requires s != []
    ensures DoubleQuotes(s) + "\"" + rest == QuoteHead(s[0]) + (DoubleQuotes(s[1..]) + "\"" + rest)
  {
    assert DoubleQuotes(s) == QuoteHead(s[0]) + DoubleQuotes(s[1..]);
    Regroup(QuoteHead(s[0]), DoubleQuotes(s[1..]), "\"", rest);
  }

  /** Concatenation regrouped. */
  lemma Regroup(a: string, b: string, c: string, d: string)
    ensures (a + b) + c + d == a + (b + c + d)
  {
  }

  /** A quoted field reads back to the value that was quoted. */
  lemma QuotedRoundTrip(s: string, rest: string)
    requires rest == [] || rest[0] != '"'
    ensures ReadQuoted(Quoted(s) + rest) == Some((s, rest))
  {
    ReadQuotedRestDoubled(s, rest);
    assert (Quoted(s) + rest)[1..] == DoubleQuotes(s) + "\"" + rest;
  }

  /** Reads an unquoted field: everything up to the next comma. */
  function ReadPlain(t: string): (r: (string, string))
    ensures r.0 + r.1 == t
    ensures ',' !in r.0
    ensures r.1 == [] || r.1[0] == ','
  {
    if t == [] || t[0] == ',' then ("", t)
    else
      var r := ReadPlain(t[1..]);
      assert ([t[0]] + r.0) + r.1 == [t[0]] + (r.0 + r.1) == t;
      ([t[0]] + r.0, r.1)
  }

  lemma {:induction false} ReadPlainField(a: string, rest: string)
    requires ',' !in a
    requires rest == [] || rest[0] == ','
    ensures ReadPlain(a + rest) == (a, rest)
  {
    if a == [] {
      assert a + rest == rest;
    } else {
      var t := a + rest;
      assert t[0] == a[0] && a[0] != ',';
      assert t[1..] == a[1..] + rest;
      ReadPlainField(a[1..], rest);
      assert ReadPlain(t) == ([a[0]] + a[1..], rest);
      assert [a[0]] + a[1..] == a;
    }
  }

  /** Consumes one comma. */
  function Comma(t: string): Option<string> {
    if t != [] && t[0] == ',' then Some(t[1..]) else None
  }

  /** Reads one CSV line as `toCSV` writes it. */
  function ParseRow(line: string): Option<Item> {
    match ReadQuoted(line)
    case None => None
    case Some((name, t)) => ParseDownloads(name, t)
  }

  function ParseDownloads(name: string, t: string): Option<Item> {
    match Comma(t)
    case None => None
    case Some(t') => var (downloads, t'') := ReadPlain(t'); ParseSize(name, downloads, t'')
  }

  function ParseSize(name: string, downloads: string, t: string): Option<Item> {
    match Comma(t)
    case None => None
    case Some(t') => var (size, t'') := ReadPlain(t'); ParseUrl(name, downloads, size, t'')
  }

  function ParseUrl(name: string, downloads: string, size: string, t: string): Option<Item> {
    match Comma(t)
    case None => None
    case Some(t') =>
      match ReadQuoted(t')
      case None => None
      case Some((url, t'')) => ParseModified(name, downloads, size, url, t'')
  }

  function ParseModified(name: string, downloads: string, size: string, url: string, t: string): Option<Item> {
    match Comma(t)
    case None => None
    case Some(t') =>
      match ReadQuoted(t')
      case None => None
      case Some((modified, t'')) =>
        if t'' == [] then Some(Item(name, downloads, size, url, modified)) else None
  }

  lemma ModifiedStage(it: Item)
    ensures ParseModified(it.name, it.downloads, it.sizeMb, it.url, "," + Quoted(it.modified)) == Some(it)
  {
    var t := Quoted(it.modified);
    QuotedRoundTrip(it.modified, "");
    assert t + "" == t;
    CommaThen(t);
  }

  lemma UrlStage(it: Item)
    ensures ParseUrl(it.name, it.downloads, it.sizeMb, "," + Quoted(it.url) + "," + Quoted(it.modified)) == Some(it)
  {
    var rest := "," + Quoted(it.modified);
    var t := Quoted(it.url) + rest;
    assert "," + Quoted(it.url) + "," + Quoted(it.modified) == "," + t by {
      assert "," + Quoted(it.url) + "," + Quoted(it.modified) == "," + (Quoted(it.url) + rest);
    }
    CommaThen(t);
    QuotedRoundTrip(it.url, rest);
    ModifiedStage(it);
  }

  /** A leading comma is consumed and the rest handed on. */
  lemma CommaThen(t: string)
    ensures Comma("," + t) == Some(t)
  {
    assert ("," + t)[1..] == t;
  }

  lemma PlainStage(a: string, rest: string)
    requires ',' !in a
    requires rest == [] || rest[0] == ','
    ensures Comma("," + a + rest) == Some(a + rest)
    ensures ReadPlain(a + rest) == (a, rest)
  {
    assert "," + a + rest == "," + (a + rest);
    CommaThen(a + rest);
    ReadPlainField(a, rest);
  }

  /** A plain field followed by the rest of a line reads as that field. */
  lemma PlainThen(a: string, rest: string)
    requires ',' !in a
    requires rest != [] && rest[0] == ','
    ensures Comma("," + a + rest) == Some(a + rest)
    ensures ReadPlain(a + rest) == (a, rest)
  {
    PlainStage(a, rest);
  }

  lemma PlainColumns(it: Item, t: string)
    requires ',' !in it.downloads && ',' !in it.sizeMb
    requires t != [] && t[0] == ','
    requires ParseUrl(it.name, it.downloads, it.sizeMb, t) == Some(it)
    ensures ParseDownloads(it.name, "," + it.downloads + ("," + it.sizeMb + t)) == Some(it)
  {
    var t4 := "," + it.sizeMb + t;
    PlainThen(it.sizeMb, t);
    assert ParseSize(it.name, it.downloads, t4) == Some(it);
    PlainThen(it.downloads, t4);
  }

  lemma RowShape(n: string, d: string, z: string, u: string, m: string)
    ensures n + "," + d + "," + z + "," + u + "," + m == n + ("," + d + ("," + z + ("," + u + "," + m)))
  {
  }

  /** Every line `toCSV` writes reads back to its item, provided the two
      unquoted columns hold no comma (a download count never does). */
  lemma RowRoundTrip(it: Item)
    requires ',' !in it.downloads && ',' !in it.sizeMb
    ensures ParseRow(Row(it)) == Some(it)
  {
    var t6 := "," + Quoted(it.url) + "," + Quoted(it.modified);
    UrlStage(it);
    PlainColumns(it, t6);
    var t2 := "," + it.downloads + ("," + it.sizeMb + t6);
    QuotedRoundTrip(it.name, t2);
    RowShape(Quoted(it.name), it.downloads, it.sizeMb, Quoted(it.url), Quoted(it.modified));
  }
}
