/** Files of other programs: line breaks of either kind, a byte order mark, and columns in any order under any name. */
module CsvForeign {
  import opened Seqs
  import opened Text
  import opened Csv

  // ---------------------------------------------------------------------------
  // Lines
  // ---------------------------------------------------------------------------

  /** Lines joined by breaks, each with or without a carriage return. */
  function Broken(lines: seq<string>, crlf: nat -> bool): string {
    if lines == [] then ""
    else if |lines| == 1 then lines[0]
    else
      var n := |lines| - 1;
      Broken(lines[..n], crlf) + (if crlf(n) then ['\r', '\n'] else ['\n']) + lines[n]
  }

  /** The breaks may be of either kind, and mixed. */
  lemma {:induction false} AnyBreaks(lines: seq<string>, crlf: nat -> bool)
    requires lines != [] && forall i :: 0 <= i < |lines| ==> OneLine(lines[i])
    ensures Lines(Broken(lines, crlf)) == lines
  {
    var n := |lines| - 1;
    assert OneLine(lines[n]);
    if n == 0 {
      LinesAppend("", lines[0]);
      assert "" + lines[0] == lines[0] && lines == [lines[0]];
    } else {
      AnyBreaks(lines[..n], crlf);
      assert OneLine(lines[n - 1]);
      OneMore(Broken(lines[..n], crlf), lines[..n], lines[n], crlf(n));
      assert lines == lines[..n] + [lines[n]];
    }
  }

  lemma OneMore(s: string, before: seq<string>, line: string, crlf: bool)
    requires Lines(s) == before && before != [] && OneLine(before[|before| - 1]) && '\n' !in line
    ensures Lines(s + (if crlf then ['\r', '\n'] else ['\n']) + line) == before + [line]
  {
    if crlf { ReturnBreak(s, before, line); } else { LinesMore(s, before, line); }
  }

  lemma ReturnBreak(s: string, before: seq<string>, line: string)
    requires Lines(s) == before && before != [] && '\n' !in line
    ensures Lines(s + ['\r', '\n'] + line) == before + [line]
  {
    var t := s + ['\r'];
    ReturnAdded(s, before);
    assert (t + ['\n'])[..|t|] == t;
    NewLine(t + ['\n'], before, line);
    assert s + ['\r', '\n'] == t + ['\n'];
  }

  lemma ReturnAdded(s: string, before: seq<string>)
    requires Lines(s) == before && before != []
    ensures Ended(Lines(s + ['\r'])) == before
  {
    var k := |before| - 1;
    LinesAppend(s, ['\r']);
    assert (before[k] + ['\r'])[..|before[k]|] == before[k];
  }

  lemma NewLine(s: string, before: seq<string>, line: string)
    requires Lines(s) == before + [""] && '\n' !in line
    ensures Lines(s + line) == before + [line]
  {
    LinesAppend(s, line);
    assert (before + [""])[..|before|] == before && "" + line == line;
  }

  const MARK: char := '\U{FEFF}'

  predicate Filled(line: string) {
    exists i :: 0 <= i < |line| && !JsSpace(line[i])
  }

  lemma FilledExactly(line: string)
    ensures Blank(line) <==> !Filled(line)
  {
    var front, end := TrimCuts(line, JsSpace);
    var kept := Trim(line, JsSpace);
    if kept != "" {
      assert line[|front|] == kept[0];
    } else {
      assert line == front + end;
    }
  }

  /**
   * Whatever the line breaks, with or without a byte order mark: the first filled line is the header, every filled
   * line after it is read under its names, and those the schema accepts are imported, in order.
   */
  lemma FileReads(lines: seq<string>, crlf: nat -> bool, marked: bool, lower: string -> string, accepts: Login -> bool)
    requires lines != [] && Filled(lines[0]) && lines[0][0] != MARK
    requires forall i :: 0 <= i < |lines| ==> OneLine(lines[i])
    ensures var r := Parsed((if marked then [MARK] else "") + Broken(lines, crlf), lower, accepts);
            var all := Candidates(NormalizeAll(Split(lines[0]), lower), Filter(lines[1..], line => Filled(line)));
            r.rows == Filter(all, accepts) && |r.rows| + r.rejected == |all|
  {
    var text := Broken(lines, crlf);
    BrokenStarts(lines, crlf);
    assert ([MARK] + text)[1..] == text && "" + text == text;
    AnyBreaks(lines, crlf);
    FilledLines(lines);
  }

  lemma {:induction false} BrokenStarts(lines: seq<string>, crlf: nat -> bool)
    requires lines != [] && lines[0] != ""
    ensures var text := Broken(lines, crlf); text != "" && text[0] == lines[0][0]
  {
    if |lines| > 1 { BrokenStarts(lines[..|lines| - 1], crlf); }
  }

  lemma FilledLines(lines: seq<string>)
    requires lines != [] && Filled(lines[0])
    ensures Filter(lines, line => !Blank(line)) == [lines[0]] + Filter(lines[1..], line => Filled(line))
  {
    forall line ensures !Blank(line) <==> Filled(line) { FilledExactly(line); }
    FilterAgree(lines, line => !Blank(line), line => Filled(line));
    assert lines == [lines[0]] + lines[1..];
    FilterConcat([lines[0]], lines[1..], line => Filled(line));
    FilterAll([lines[0]], line => Filled(line));
  }

  // ---------------------------------------------------------------------------
  // Columns
  // ---------------------------------------------------------------------------

  /** A header is trimmed, lower-cased, and its blanks become underscores. */
  lemma HeaderRead(front: string, name: string, end: string, lower: string -> string)
    requires AllSpace(front, JsSpace) && AllSpace(end, JsSpace) && name != ""
    requires !JsSpace(name[0]) && !JsSpace(name[|name| - 1])
    ensures var header := NormalizeHeader(front + name + end, lower);
            && |header| == |lower(name)|
            && forall i :: 0 <= i < |header| ==> header[i] == if lower(name)[i] == ' ' then '_' else lower(name)[i]
  {
    TrimBetween(front, name, end, JsSpace);
  }

  /** The only column under one of the names. */
  predicate OnlyColumn(headers: seq<string>, names: seq<string>, k: nat) {
    k < |headers| && headers[k] in names && forall j :: 0 <= j < |headers| && j != k ==> headers[j] !in names
  }

  predicate NoColumn(headers: seq<string>, names: seq<string>) {
    forall j :: 0 <= j < |headers| ==> headers[j] !in names
  }

  function At(values: seq<string>, k: nat): string {
    if k < |values| then values[k] else ""
  }

  /** What the only column under the names holds; nothing when there is none. */
  predicate ReadsAs(headers: seq<string>, values: seq<string>, names: seq<string>, field: string) {
    && (NoColumn(headers, names) ==> field == "")
    && forall k :: 0 <= k < |headers| && OnlyColumn(headers, names, k) ==> field == At(values, k)
  }

  /** Of several columns with one header, the last decides. */
  lemma {:induction false} LastColumn(headers: seq<string>, values: seq<string>, k: nat)
    requires k < |headers| && forall j :: k < j < |headers| ==> headers[j] != headers[k]
    ensures Cell(headers, values, headers[k]) == At(values, k)
  {
    var n := |headers| - 1;
    if k < n { LastColumn(headers[..n], values, k); }
  }

  lemma {:induction false} PickOnly(headers: seq<string>, values: seq<string>, names: seq<string>, k: nat)
    requires OnlyColumn(headers, names, k)
    ensures Pick(headers, values, names) == At(values, k)
  {
    if names[0] == headers[k] {
      LastColumn(headers, values, k);
      if At(values, k) == "" { PickEmpty(headers, values, names[1..], k); }
    } else {
      assert names[0] in names;
      CellMissing(headers, values, names[0]);
      assert forall name :: name in names[1..] ==> name in names;
      PickOnly(headers, values, names[1..], k);
    }
  }

  lemma {:induction false} PickEmpty(headers: seq<string>, values: seq<string>, names: seq<string>, k: nat)
    requires k < |headers| && At(values, k) == ""
    requires forall j :: 0 <= j < |headers| && j != k ==> headers[j] !in names && headers[j] != headers[k]
    ensures Pick(headers, values, names) == ""
  {
    if names != [] {
      if names[0] == headers[k] { LastColumn(headers, values, k); } else { CellMissing(headers, values, names[0]); }
      assert forall name :: name in names[1..] ==> name in names;
      PickEmpty(headers, values, names[1..], k);
    }
  }

  lemma {:induction false} PickNone(headers: seq<string>, values: seq<string>, names: seq<string>)
    requires NoColumn(headers, names)
    ensures Pick(headers, values, names) == ""
  {
    if names != [] {
      assert names[0] in names;
      CellMissing(headers, values, names[0]);
      assert forall name :: name in names[1..] ==> name in names;
      PickNone(headers, values, names[1..]);
    }
  }

  lemma PickReads(headers: seq<string>, values: seq<string>, names: seq<string>)
    ensures ReadsAs(headers, values, names, Pick(headers, values, names))
  {
    if NoColumn(headers, names) { PickNone(headers, values, names); }
    forall k | 0 <= k < |headers| && OnlyColumn(headers, names, k) ensures Pick(headers, values, names) == At(values, k) {
      PickOnly(headers, values, names, k);
    }
  }

  /** A field that was found, or nothing. */
  function Or(field: Option<string>): string {
    field.Or("")
  }

  /**
   * A row is read by the names of the columns, wherever they stand: each field is the value of the only column under
   * one of its names, and empty without such a column.
   */
  lemma ColumnsRead(headers: seq<string>, values: seq<string>)
    ensures var c := Candidate(headers, values);
            && ReadsAs(headers, values, ["url", "origin", "website", "signon_realm"], c.origin)
            && ReadsAs(headers, values, ["username", "login", "email"], c.username)
            && ReadsAs(headers, values, ["password"], c.password)
            && ReadsAs(headers, values, ["name", "title"], Or(c.title)) && c.title != Some("")
            && ReadsAs(headers, values, ["notes", "note"], Or(c.notes)) && c.notes != Some("")
  {
    PickReads(headers, values, ["url", "origin", "website", "signon_realm"]);
    PickReads(headers, values, ["username", "login", "email"]);
    PickReads(headers, values, ["password"]);
    PickReads(headers, values, ["name", "title"]);
    PickReads(headers, values, ["notes", "note"]);
  }

  function First(a: string, b: string): string {
    if a != "" then a else b
  }

  /** Of several columns for a field, the first filled one in this order of names counts. */
  lemma NamesRanked(headers: seq<string>, values: seq<string>)
    ensures var c, cell := Candidate(headers, values), name => Cell(headers, values, name);
            && c.origin == First(cell("url"), First(cell("origin"), First(cell("website"), cell("signon_realm"))))
            && c.username == First(cell("username"), First(cell("login"), cell("email")))
            && c.password == cell("password")
            && Or(c.title) == First(cell("name"), cell("title")) && Or(c.notes) == First(cell("notes"), cell("note"))
  {
    PickTwo(headers, values, "name", "title");
    PickTwo(headers, values, "notes", "note");
    assert ["password"] == ["password"] + [];
    PickNext(headers, values, "password", []);
    assert ["username", "login", "email"] == ["username"] + ["login", "email"];
    PickNext(headers, values, "username", ["login", "email"]);
    PickTwo(headers, values, "login", "email");
    OriginRanked(headers, values);
  }

  lemma OriginRanked(headers: seq<string>, values: seq<string>)
    ensures Pick(headers, values, ["url", "origin", "website", "signon_realm"]) ==
            First(Cell(headers, values, "url"), First(Cell(headers, values, "origin"),
                  First(Cell(headers, values, "website"), Cell(headers, values, "signon_realm"))))
  {
    var three, two := ["origin", "website", "signon_realm"], ["website", "signon_realm"];
    assert ["url", "origin", "website", "signon_realm"] == ["url"] + three && three == ["origin"] + two;
    PickNext(headers, values, "url", three);
    PickNext(headers, values, "origin", two);
    PickTwo(headers, values, "website", "signon_realm");
  }

  lemma PickNext(headers: seq<string>, values: seq<string>, name: string, others: seq<string>)
    ensures Pick(headers, values, [name] + others) ==
            First(Cell(headers, values, name), Pick(headers, values, others))
  {
    assert ([name] + others)[1..] == others;
  }

  lemma PickTwo(headers: seq<string>, values: seq<string>, a: string, b: string)
    ensures Pick(headers, values, [a, b]) == First(Cell(headers, values, a), Cell(headers, values, b))
  {
    assert [a, b] == [a] + [b] && [b] == [b] + [];
    PickNext(headers, values, a, [b]);
    PickNext(headers, values, b, []);
  }

  // ---------------------------------------------------------------------------
  // What is exported
  // ---------------------------------------------------------------------------

  /** An export: the header, and for every item one line whose cells are its five values, in this order. */
  lemma ExportLayout(items: seq<Export>, i: nat)
    requires i < |items| && forall j :: 0 <= j < |items| ==> NewlineFree(items[j])
    ensures var lines := Lines(ItemsToCsv(items));
            && |lines| == |items| + 1 && lines[0] == "name,url,username,password,note"
            && Split(lines[i + 1]) ==
               TrimAll([items[i].title, items[i].origin, items[i].username, items[i].password, items[i].notes])
  {
    var lines := CsvLines(items);
    HeaderLine();
    forall k | 0 <= k < |lines| ensures OneLine(lines[k]) {
      if k > 0 { RowIsLine(Values(items[k - 1])); }
    }
    LinesOfJoin(lines);
    SplitRow(Values(items[i]));
  }
}
