/**
 The account registry as a file: a schema header and one line per row
 (internal/registry/store.go, readAllWithHeader and writeAll).
 */
module Tables {
  import opened Wrappers
  import opened Strings
  import opened Validate
  import opened Records
  import Numbers
  import Times

  datatype Version = V2 | V3 | V4 | V5

  datatype Table = Table(version: Version, rows: seq<Row>) | Unreadable

  const MAX_BYTES := 16 * 1024 * 1024

  function Header(v: Version): (h: string)
    ensures |h| == 30 && h[29] == (match v case V2 => '2' case V3 => '3' case V4 => '4' case V5 => '5')
  {
    "# linux-temp-admin registry v" + match v case V2 => "2" case V3 => "3" case V4 => "4" case V5 => "5"
  }

  function VersionOf(line: string): Option<Version> {
    if line == Header(V5) then Some(V5)
    else if line == Header(V4) then Some(V4)
    else if line == Header(V3) then Some(V3)
    else if line == Header(V2) then Some(V2)
    else None
  }

  lemma VersionOfHeader(v: Version)
    ensures VersionOf(Header(v)) == Some(v)
  {
  }

  function ParseLine(line: string, v: Version): Option<Row> {
    match v
    case V5 => ParseFields(line, 17, 17)
    case V4 => ParseFields(line, 14, 14)
    case V3 => ParseFields(line, 13, 13)
    case V2 => ParseFields(line, 9, 11)
  }

  predicate Names(rows: seq<Row>, user: string) { exists r | r in rows :: r.user == user }

  predicate Distinct(rows: seq<Row>) { forall i, j | 0 <= i < j < |rows| :: rows[i].user != rows[j].user }

  predicate Valid(rows: seq<Row>) { Distinct(rows) && forall r | r in rows :: ValidRow(r) }

  /** Blank lines are skipped; a second header, a bad row or a repeated name is corruption. */
  function Step(before: seq<Row>, line: string, v: Version): (rows: Option<seq<Row>>)
    ensures Valid(before) && rows.Some? ==> Valid(rows.value)
  {
    if VersionOf(line).Some? then None
    else if line == "" then Some(before)
    else match ParseLine(line, v)
      case None => None
      case Some(r) => if Names(before, r.user) then None else Some(before + [r])
  }

  function ParseLines(lines: seq<string>, v: Version): (rows: Option<seq<Row>>)
    ensures rows.Some? ==> Valid(rows.value)
  {
    if lines == [] then Some([])
    else match ParseLines(lines[..|lines| - 1], v)
      case None => None
      case Some(before) => Step(before, lines[|lines| - 1], v)
  }

  function ReadTable(text: string): Table {
    if |text| > MAX_BYTES then Unreadable
    else
      var lines := Split(text, '\n');
      match VersionOf(lines[0])
      case None => Unreadable
      case Some(v) =>
        match ParseLines(lines[1..], v)
        case None => Unreadable
        case Some(rows) => Table(v, rows)
  }

  lemma ReadIsValid(text: string)
    ensures ReadTable(text).Table? ==> Valid(ReadTable(text).rows)
  {
  }

  method ReadAll(text: string) returns (t: Table)
    ensures t == ReadTable(text)
  {
    hide Split, ParseLine, VersionOf, Valid, Distinct;
    if |text| > MAX_BYTES { return Unreadable; }
    var lines := Split(text, '\n');
    var version := VersionOf(lines[0]);
    if version == None { return Unreadable; }
    var body := lines[1..];
    var rows, seen := [], {};
    for i := 0 to |body|
      invariant ParseLines(body[..i], version.value) == Some(rows)
      invariant forall user :: user in seen <==> Names(rows, user)
    {
      var line := body[i];
      assert body[..i + 1][..i] == body[..i];
      if VersionOf(line).Some? {
        BadPrefix(body, i + 1, version.value);
        return Unreadable;
      }
      if line != "" {
        var r := ParseLine(line, version.value);
        if r == None || r.value.user in seen {
          BadPrefix(body, i + 1, version.value);
          return Unreadable;
        }
        seen := seen + {r.value.user};
        rows := rows + [r.value];
      }
    }
    assert body[..|body|] == body;
    return Table(version.value, rows);
  }

  /** One bad line spoils the file. */
  lemma {:induction false} BadPrefix(lines: seq<string>, n: nat, v: Version)
    requires n <= |lines| && ParseLines(lines[..n], v) == None
    ensures ParseLines(lines, v) == None
    decreases |lines|
  {
    if n < |lines| {
      assert lines[..|lines| - 1][..n] == lines[..n];
      BadPrefix(lines[..|lines| - 1], n, v);
    } else {
      assert lines[..n] == lines;
    }
  }

  function Render(rows: seq<Row>): string {
    if rows == [] then Header(V5) + "\n"
    else Render(rows[..|rows| - 1]) + RowText(rows[|rows| - 1]) + "\n"
  }

  /** The size check is made row by row and never lets too much through. */
  method BuildTable(rows: seq<Row>) returns (text: Option<string>)
    ensures text == if |Render(rows)| <= MAX_BYTES then Some(Render(rows)) else None
  {
    var b := Header(V5) + "\n";
    for i := 0 to |rows|
      invariant b == Render(rows[..i]) && |b| <= MAX_BYTES
    {
      var row := RowText(rows[i]);
      var remaining := MAX_BYTES - |b|;
      assert rows[..i + 1][..i] == rows[..i];
      if remaining < 1 || |row| > remaining - 1 {
        RenderGrows(rows, i + 1);
        return None;
      }
      b := b + row + "\n";
    }
    assert rows[..|rows|] == rows;
    return Some(b);
  }

  lemma {:induction false} RenderGrows(rows: seq<Row>, n: nat)
    requires n <= |rows|
    ensures |Render(rows[..n])| <= |Render(rows)|
    decreases |rows|
  {
    if n < |rows| {
      assert rows[..|rows| - 1][..n] == rows[..n];
      RenderGrows(rows[..|rows| - 1], n);
    } else {
      assert rows[..n] == rows;
    }
  }

  function SanitizeAll(rows: seq<Row>): (out: seq<Row>)
    ensures |out| == |rows| && forall i | 0 <= i < |rows| :: out[i] == SanitizeRow(rows[i])
  {
    seq(|rows|, i requires 0 <= i < |rows| => SanitizeRow(rows[i]))
  }

  lemma NameIsClean(user: string)
    requires Username(user)
    ensures CleanText(user) && CleanText(QUARANTINE_PREFIX + user)
  {
    assert CleanText(QUARANTINE_PREFIX);
    assert forall c | c in user :: NameChar(c);
  }

  /** What validity is about is never touched by sanitizing. */
  lemma SanitizedRowIsValid(r: Row)
    requires ValidRow(r)
    ensures ValidRow(SanitizeRow(r))
    ensures var s := SanitizeRow(r);
      s == r.(created := s.created, expires := s.expires, host := s.host, fingerprint := s.fingerprint, autoUnit := s.autoUnit)
  {
    NameIsClean(r.user);
    assert CleanText(r.generation);
    if r.quarantineUntil != "" { Times.ParsedIsClean(r.quarantineUntil); }
  }

  lemma SanitizedIsValid(rows: seq<Row>)
    requires Valid(rows)
    ensures Valid(SanitizeAll(rows))
  {
    forall r | r in rows { SanitizedRowIsValid(r); }
  }

  lemma {:induction false} SplitLine(a: string, line: string)
    requires '\n' !in line && Split(a, '\n')[|Split(a, '\n')| - 1] == ""
    ensures Split(a + line + "\n", '\n') == Split(a, '\n')[..|Split(a, '\n')| - 1] + [line, ""]
  {
    if a == "" {
      SplitFirst(line, "", '\n');
      assert line + ['\n'] + "" == "" + line + "\n";
    } else {
      SplitLine(a[1..], line);
      assert (a + line + "\n")[1..] == a[1..] + line + "\n";
    }
  }

  function RowTexts(rows: seq<Row>): (lines: seq<string>)
    ensures |lines| == |rows|
  {
    if rows == [] then [] else RowTexts(rows[..|rows| - 1]) + [RowText(rows[|rows| - 1])]
  }

  /** A valid row is one line that is no header and reads back sanitized. */
  lemma RowLine(r: Row)
    requires ValidRow(r)
    ensures '\n' !in RowText(r) && RowText(r) != "" && VersionOf(RowText(r)) == None
    ensures ParseLine(RowText(r), V5) == Some(SanitizeRow(r))
    ensures SanitizeRow(r).user == r.user
  {
    RowIsOneLine(r);
    TabsAreNotHeaders(RowText(r));
    SanitizedRowIsValid(r);
    RowRoundTrip(r);
  }

  lemma TabsAreNotHeaders(line: string)
    requires '\t' in line
    ensures VersionOf(line) == None && line != ""
  {
    forall v: Version ensures '\t' !in Header(v) {
    }
  }

  lemma HeaderLine()
    ensures Split(Header(V5) + "\n", '\n') == [Header(V5), ""]
  {
    assert '\n' !in Header(V5);
    SplitFirst(Header(V5), "", '\n');
    assert Header(V5) + ['\n'] + "" == Header(V5) + "\n";
  }

  /** The lines of a rendered table: header, rows, and the end of the last line. */
  lemma {:induction false} RenderedLines(rows: seq<Row>)
    requires forall r | r in rows :: ValidRow(r)
    ensures Split(Render(rows), '\n') == [Header(V5)] + RowTexts(rows) + [""]
  {
    if rows == [] {
      HeaderLine();
    } else {
      hide RowText, Header, ParseLine, VersionOf, ValidRow;
      var front, last := rows[..|rows| - 1], rows[|rows| - 1];
      assert last in rows;
      RowLine(last);
      RenderedLines(front);
      SplitLine(Render(front), RowText(last));
      assert ([Header(V5)] + RowTexts(front) + [""])[..|front| + 1] == [Header(V5)] + RowTexts(front);
    }
  }

  lemma StepRow(before: seq<Row>, r: Row)
    requires ValidRow(r) && !Names(before, r.user)
    ensures Step(before, RowText(r), V5) == Some(before + [SanitizeRow(r)])
  {
    RowLine(r);
  }

  lemma LastRow(rows: seq<Row>)
    requires rows != [] && Valid(rows)
    ensures var front, last := rows[..|rows| - 1], rows[|rows| - 1];
      Valid(front) && ValidRow(last) && !Names(front, last.user) &&
      SanitizeAll(rows) == SanitizeAll(front) + [SanitizeRow(last)] &&
      RowTexts(rows)[..|front|] == RowTexts(front)
  {
    assert rows[|rows| - 1] in rows;
  }

  lemma {:induction false} ParsedLines(rows: seq<Row>)
    requires Valid(rows)
    ensures ParseLines(RowTexts(rows), V5) == Some(SanitizeAll(rows))
  {
    if rows == [] {
      assert SanitizeAll(rows) == [];
    } else {
      var front, last := rows[..|rows| - 1], rows[|rows| - 1];
      LastRow(rows);
      ParsedLines(front);
      SanitizedUsers(front);
      StepRow(SanitizeAll(front), last);
    }
  }

  lemma SanitizedUsers(rows: seq<Row>)
    requires forall r | r in rows :: ValidRow(r)
    ensures forall user :: Names(SanitizeAll(rows), user) <==> Names(rows, user)
  {
    forall i | 0 <= i < |rows| ensures SanitizeAll(rows)[i].user == rows[i].user {
      SanitizedRowIsValid(rows[i]);
    }
    forall user ensures Names(SanitizeAll(rows), user) <==> Names(rows, user) {
      if Names(rows, user) {
        var i :| 0 <= i < |rows| && rows[i].user == user;
        assert SanitizeAll(rows)[i] in SanitizeAll(rows);
      }
    }
  }

  lemma ReadFrom(text: string, v: Version, body: seq<string>, rows: seq<Row>)
    requires |text| <= MAX_BYTES && Split(text, '\n') == [Header(v)] + body && ParseLines(body, v) == Some(rows)
    ensures ReadTable(text) == Table(v, rows)
  {
    VersionOfHeader(v);
    assert ([Header(v)] + body)[1..] == body;
  }

  /** Reading back a written table returns exactly its rows, sanitized. */
  lemma TableRoundTrip(rows: seq<Row>)
    requires Valid(rows) && |Render(rows)| <= MAX_BYTES
    ensures ReadTable(Render(rows)) == Table(V5, SanitizeAll(rows))
  {
    RenderedLines(rows);
    ParsedBody(rows);
    assert [Header(V5)] + RowTexts(rows) + [""] == [Header(V5)] + (RowTexts(rows) + [""]);
    ReadFrom(Render(rows), V5, RowTexts(rows) + [""], SanitizeAll(rows));
  }

  /** Without a tab, CR or LF in any field nothing changes at all. */
  lemma CleanTableRoundTrip(rows: seq<Row>)
    requires Valid(rows) && |Render(rows)| <= MAX_BYTES && forall r | r in rows :: CleanRow(r)
    ensures ReadTable(Render(rows)) == Table(V5, rows)
  {
    TableRoundTrip(rows);
    forall r | r in rows { CleanRowStays(r); }
    assert SanitizeAll(rows) == rows;
  }

  lemma ParsedBody(rows: seq<Row>)
    requires Valid(rows)
    ensures ParseLines(RowTexts(rows) + [""], V5) == Some(SanitizeAll(rows))
  {
    ParsedLines(rows);
    assert (RowTexts(rows) + [""])[..|rows|] == RowTexts(rows);
    assert VersionOf("") == None;
  }
}
