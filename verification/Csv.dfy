/** Password export and import as comma-separated values. */
module Csv {
  import opened Seqs
  import opened Text

  const QUOTE: char := '"'

  // ---------------------------------------------------------------------------
  // Splitting a line into cells
  // ---------------------------------------------------------------------------

  /** The variables of the splitting loop. */
  datatype Cells = Cells(done: seq<string>, current: string, quoted: bool)

  const EMPTY: Cells := Cells([], "", false)

  /** The loop, run over what is left of the line. */
  function Scan(rest: string, c: Cells): seq<string> {
    if rest == "" then c.done + [c.current]
    else if rest[0] == QUOTE && c.quoted && |rest| > 1 && rest[1] == QUOTE
    then Scan(rest[2..], c.(current := c.current + [QUOTE]))
    else if rest[0] == QUOTE then Scan(rest[1..], c.(quoted := !c.quoted))
    else if rest[0] == ',' && !c.quoted then Scan(rest[1..], Cells(c.done + [c.current], "", false))
    else Scan(rest[1..], c.(current := c.current + [rest[0]]))
  }

  function TrimAll(cells: seq<string>): (r: seq<string>)
    ensures |r| == |cells|
  {
    seq(|cells|, i requires 0 <= i < |cells| => Trim(cells[i], JsSpace))
  }

  function Split(line: string): seq<string> {
    TrimAll(Scan(line, EMPTY))
  }

  /** `splitCsvLine`. */
  method SplitCsvLine(line: string) returns (cells: seq<string>)
    ensures cells == Split(line)
  {
    var done, current, quoted := [], "", false;
    var index := 0;
    while index < |line|
      invariant index <= |line| && Scan(line[index..], Cells(done, current, quoted)) == Scan(line, EMPTY)
    {
      var c := line[index];
      assert line[index..][1..] == line[index + 1..];
      if c == QUOTE && quoted && index + 1 < |line| && line[index + 1] == QUOTE {
        assert line[index..][2..] == line[index + 2..];
        current := current + [QUOTE];
        index := index + 1;
      } else if c == QUOTE {
        quoted := !quoted;
      } else if c == ',' && !quoted {
        done, current := done + [current], "";
      } else {
        current := current + [c];
      }
      index := index + 1;
    }
    cells := TrimAll(done + [current]);
  }

  // ---------------------------------------------------------------------------
  // Writing a row
  // ---------------------------------------------------------------------------

  /** `v.replace(/"/g, '""')`. */
  function Escape(v: string): string {
    if v == "" then "" else (if v[0] == QUOTE then [QUOTE, QUOTE] else [v[0]]) + Escape(v[1..])
  }

  function Quote(v: string): string {
    [QUOTE] + Escape(v) + [QUOTE]
  }

  /** Quoted values, joined by commas. */
  function Row(values: seq<string>): string {
    if values == [] then ""
    else if |values| == 1 then Quote(values[0])
    else Quote(values[0]) + [','] + Row(values[1..])
  }

  /** An escaped value, up to its closing quote, is scanned as the value. */
  lemma {:induction false} ScanEscaped(v: string, rest: string, done: seq<string>, current: string)
    requires rest == "" || rest[0] != QUOTE
    ensures Scan(Escape(v) + [QUOTE] + rest, Cells(done, current, true)) == Scan(rest, Cells(done, current + v, false))
  {
    var all := Escape(v) + [QUOTE] + rest;
    if v == "" {
      assert all[1..] == rest;
      assert current + v == current;
    } else {
      ScanEscaped(v[1..], rest, done, current + [v[0]]);
      var tail := Escape(v[1..]) + [QUOTE] + rest;
      assert all == (if v[0] == QUOTE then [QUOTE, QUOTE] else [v[0]]) + tail;
      if v[0] == QUOTE {
        assert all[2..] == tail;
      } else {
        assert all[1..] == tail;
      }
      assert current + v == current + [v[0]] + v[1..];
    }
  }

  lemma ScanQuoted(v: string, rest: string, done: seq<string>)
    requires rest == "" || rest[0] != QUOTE
    ensures Scan(Quote(v) + rest, Cells(done, "", false)) == Scan(rest, Cells(done, v, false))
  {
    var all := Quote(v) + rest;
    assert all[1..] == Escape(v) + [QUOTE] + rest;
    ScanEscaped(v, rest, done, "");
    assert "" + v == v;
  }

  lemma ScanCell(v: string, rest: string, done: seq<string>)
    ensures Scan(Quote(v) + [','] + rest, Cells(done, "", false)) == Scan(rest, Cells(done + [v], "", false))
    ensures Scan(Quote(v), Cells(done, "", false)) == done + [v]
  {
    ScanQuoted(v, [','] + rest, done);
    ScanQuoted(v, "", done);
    assert Quote(v) + "" == Quote(v) && Quote(v) + [','] + rest == Quote(v) + ([','] + rest);
    assert ([','] + rest)[1..] == rest;
  }

  lemma {:induction false} ScanRow(values: seq<string>, done: seq<string>)
    requires values != []
    ensures Scan(Row(values), Cells(done, "", false)) == done + values
  {
    var v, rest := values[0], values[1..];
    assert values == [v] + rest;
    if rest == [] {
      ScanCell(v, "", done);
    } else {
      ScanCell(v, Row(rest), done);
      ScanRow(rest, done + [v]);
      assert done + values == done + [v] + rest;
    }
  }

  /** Splitting an exported row gives back every value, trimmed, whatever the values contain. */
  lemma SplitRow(values: seq<string>)
    requires values != []
    ensures Split(Row(values)) == TrimAll(values)
  {
    ScanRow(values, []);
    assert [] + values == values;
  }

  // ---------------------------------------------------------------------------
  // Lines
  // ---------------------------------------------------------------------------

  /** A carriage return before a line feed belongs to the line break. */
  function WithoutReturn(line: string): string {
    if line != "" && line[|line| - 1] == '\r' then line[..|line| - 1] else line
  }

  /** The lines of a text that is broken after its last one. */
  function Ended(lines: seq<string>): (r: seq<string>)
    requires lines != []
    ensures |r| == |lines|
  {
    lines[..|lines| - 1] + [WithoutReturn(lines[|lines| - 1])]
  }

  /** The lines of a text to which a character is added. */
  function Extended(lines: seq<string>, c: char): (r: seq<string>)
    requires lines != []
    ensures r != []
  {
    var k := |lines| - 1;
    if c == '\n' then Ended(lines) + [""] else lines[..k] + [lines[k] + [c]]
  }

  /** `csv.split(/\r?\n/u)`. */
  function Lines(s: string): (lines: seq<string>)
    ensures |lines| >= 1
  {
    if s == "" then [""] else Extended(Lines(s[..|s| - 1]), s[|s| - 1])
  }

  /** `lines.join("\n")`. */
  function Join(lines: seq<string>): string {
    if lines == [] then ""
    else if |lines| == 1 then lines[0]
    else Join(lines[..|lines| - 1]) + ['\n'] + lines[|lines| - 1]
  }

  /** Text without a line feed extends the last line. */
  lemma {:induction false} LinesAppend(s: string, x: string)
    requires '\n' !in x
    ensures var lines := Lines(s); Lines(s + x) == lines[..|lines| - 1] + [lines[|lines| - 1] + x]
  {
    var lines := Lines(s);
    var k := |lines| - 1;
    if x == "" {
      assert s + x == s && lines[k] + x == lines[k];
      assert lines == lines[..k] + [lines[k]];
    } else {
      var n := |x| - 1;
      LinesAppend(s, x[..n]);
      assert (s + x)[..|s + x| - 1] == s + x[..n];
      assert x[n] in x;
      AppendLast(lines[k], x[..n], x[n]);
      assert x[..n] + [x[n]] == x;
    }
  }

  ghost predicate OneLine(line: string) {
    '\n' !in line && WithoutReturn(line) == line
  }

  lemma LinesBreak(s: string, before: seq<string>)
    requires Lines(s) == before && before != [] && WithoutReturn(before[|before| - 1]) == before[|before| - 1]
    ensures Lines(s + ['\n']) == before + [""]
  {
    var t, k := s + ['\n'], |before| - 1;
    assert t[..|s|] == s;
    assert before[..k] + [before[k], ""] == before + [""];
  }

  lemma LinesMore(s: string, before: seq<string>, line: string)
    requires Lines(s) == before && before != [] && WithoutReturn(before[|before| - 1]) == before[|before| - 1]
    requires '\n' !in line
    ensures Lines(s + ['\n'] + line) == before + [line]
  {
    LinesBreak(s, before);
    LinesAppend(s + ['\n'], line);
    assert (before + [""])[..|before|] == before;
    assert "" + line == line;
  }

  /** Splitting joined lines gives the lines back. */
  lemma {:induction false} LinesOfJoin(lines: seq<string>)
    requires lines != [] && forall i :: 0 <= i < |lines| ==> OneLine(lines[i])
    ensures Lines(Join(lines)) == lines
  {
    var n := |lines| - 1;
    assert OneLine(lines[n]);
    if n == 0 {
      LinesAppend("", lines[0]);
      assert "" + lines[0] == lines[0] && lines == [lines[0]];
    } else {
      LinesOfJoin(lines[..n]);
      assert OneLine(lines[n - 1]);
      LinesMore(Join(lines[..n]), lines[..n], lines[n]);
      assert lines == lines[..n] + [lines[n]];
    }
  }

  lemma ExtendSecond(a: seq<string>, b: seq<string>, c: char)
    requires b != []
    ensures Extended(a + b, c) == a + Extended(b, c)
  {
    assert (a + b)[..|a + b| - 1] == a + b[..|b| - 1];
  }

  lemma LinesSnoc(s: string, c: char)
    ensures Lines(s + [c]) == Extended(Lines(s), c)
  {
    assert (s + [c])[..|s|] == s;
  }

  lemma AfterBreakSnoc(head: string, before: seq<string>, x: string, c: char)
    requires Lines(head + x) == before + Lines(x)
    ensures Lines(head + (x + [c])) == before + Lines(x + [c])
  {
    AppendLast(head, x, c);
    LinesSnoc(head + x, c);
    LinesSnoc(x, c);
    ExtendSecond(before, Lines(x), c);
  }

  lemma {:induction false} LinesAfter(head: string, before: seq<string>, x: string)
    requires Lines(head) == before + [""]
    ensures Lines(head + x) == before + Lines(x)
  {
    if x == "" {
      AppendLast(head, "", '\n');
    } else {
      var init, c := x[..|x| - 1], x[|x| - 1];
      assert x == init + [c];
      LinesAfter(head, before, init);
      AfterBreakSnoc(head, before, init, c);
    }
  }

  /** What follows a line break is split by itself. */
  lemma LinesAfterBreak(s: string, x: string)
    ensures Lines(s + ['\n'] + x) == Ended(Lines(s)) + Lines(x)
  {
    LinesSnoc(s, '\n');
    LinesAfter(s + ['\n'], Ended(Lines(s)), x);
  }

  lemma {:induction false} JoinConcat(a: seq<string>, b: seq<string>)
    requires a != [] && b != []
    ensures Join(a + b) == Join(a) + ['\n'] + Join(b)
  {
    var n := |b| - 1;
    assert (a + b)[..|a + b| - 1] == a + b[..n];
    if n == 0 {
      assert a + b[..n] == a;
    } else {
      JoinConcat(a, b[..n]);
    }
  }

  lemma LinesOfOne(line: string)
    requires OneLine(line)
    ensures Lines(line) == [line]
  {
    LinesAppend("", line);
    assert "" + line == line;
  }

  /** A line of a joined text comes first, and unchanged, whatever follows. */
  lemma FirstLine(line: string, rest: seq<string>)
    requires OneLine(line)
    ensures Lines(Join([line] + rest)) == if rest == [] then [line] else [line] + Lines(Join(rest))
  {
    LinesOfOne(line);
    if rest == [] {
      assert [line] + rest == [line];
    } else {
      JoinConcat([line], rest);
      LinesAfterBreak(line, Join(rest));
    }
  }

  /** It is a line of the text whatever the other lines hold. */
  lemma LineStays(before: seq<string>, line: string, after: seq<string>)
    requires OneLine(line)
    ensures line in Lines(Join(before + ([line] + after)))
  {
    var rest := [line] + after;
    FirstLine(line, after);
    assert Lines(Join(rest))[0] == line;
    if before == [] {
      assert before + rest == rest;
    } else {
      JoinConcat(before, rest);
      LinesAfterBreak(Join(before), Join(rest));
    }
  }

  // ---------------------------------------------------------------------------
  // Importing
  // ---------------------------------------------------------------------------

  datatype Login = Login(origin: string, username: string, password: string, title: Option<string>, notes: Option<string>)

  datatype Imported = Imported(rows: seq<Login>, rejected: nat)

  /** `csv.replace(/^\uFEFF/u, "")`. */
  function WithoutMark(csv: string): string {
    if csv != "" && csv[0] == '\U{FEFF}' then csv[1..] else csv
  }

  predicate Blank(line: string) {
    Trim(line, JsSpace) == ""
  }

  /** The lines that count. */
  function DataLines(csv: string): seq<string> {
    Filter(Lines(WithoutMark(csv)), line => !Blank(line))
  }

  function Underscored(s: string): string {
    seq(|s|, i requires 0 <= i < |s| => if s[i] == ' ' then '_' else s[i])
  }

  /** `normalizeHeader`, on a cell. */
  function NormalizeHeader(header: string, lower: string -> string): string {
    Underscored(lower(Trim(header, JsSpace)))
  }

  function NormalizeAll(headers: seq<string>, lower: string -> string): seq<string> {
    seq(|headers|, i requires 0 <= i < |headers| => NormalizeHeader(headers[i], lower))
  }

  /** `raw[name]`, or the empty string: the last header of that name decides, and a missing cell is empty. */
  function Cell(headers: seq<string>, values: seq<string>, name: string): string {
    if headers == [] then ""
    else
      var n := |headers| - 1;
      if headers[n] == name then if n < |values| then values[n] else ""
      else Cell(headers[..n], values, name)
  }

  /** `pick`: the first non-empty value among the names. */
  function Pick(headers: seq<string>, values: seq<string>, names: seq<string>): string {
    if names == [] then ""
    else if Cell(headers, values, names[0]) != "" then Cell(headers, values, names[0])
    else Pick(headers, values, names[1..])
  }

  function OrUndefined(s: string): Option<string> {
    if s == "" then None else Some(s)
  }

  function Candidate(headers: seq<string>, values: seq<string>): Login {
    Login(Pick(headers, values, ["url", "origin", "website", "signon_realm"]),
          Pick(headers, values, ["username", "login", "email"]),
          Pick(headers, values, ["password"]),
          OrUndefined(Pick(headers, values, ["name", "title"])),
          OrUndefined(Pick(headers, values, ["notes", "note"])))
  }

  /** What a list of candidates comes to; `accepts` is the row schema. */
  function Sorted(candidates: seq<Login>, accepts: Login -> bool): (r: Imported)
    ensures |r.rows| + r.rejected == |candidates|
    ensures r.rows == Filter(candidates, accepts)
  {
    if candidates == [] then Imported([], 0)
    else
      var n := |candidates| - 1;
      var before := Sorted(candidates[..n], accepts);
      if accepts(candidates[n]) then before.(rows := before.rows + [candidates[n]])
      else before.(rejected := before.rejected + 1)
  }

  function Candidates(headers: seq<string>, lines: seq<string>): (r: seq<Login>)
    ensures |r| == |lines|
  {
    seq(|lines|, i requires 0 <= i < |lines| => Candidate(headers, Split(lines[i])))
  }

  function Parsed(csv: string, lower: string -> string, accepts: Login -> bool): Imported {
    var lines := DataLines(csv);
    if |lines| < 2 then Imported([], 0)
    else Sorted(Candidates(NormalizeAll(Split(lines[0]), lower), lines[1..]), accepts)
  }

  /** `parsePasswordCsv`. */
  method ParsePasswordCsv(csv: string, lower: string -> string, accepts: Login -> bool) returns (r: Imported)
    ensures r == Parsed(csv, lower, accepts)
    ensures |r.rows| + r.rejected == if |DataLines(csv)| < 2 then 0 else |DataLines(csv)| - 1
  {
    var lines := DataLines(csv);
    if |lines| < 2 { return Imported([], 0); }
    var cells := SplitCsvLine(lines[0]);
    var headers := NormalizeAll(cells, lower);
    var data := lines[1..];
    ghost var all := Candidates(headers, data);
    var rows, rejected := [], 0;
    for i := 0 to |data|
      invariant Imported(rows, rejected) == Sorted(all[..i], accepts)
    {
      var values := SplitCsvLine(data[i]);
      var candidate := Candidate(headers, values);
      assert all[..i + 1][..i] == all[..i] && all[i] == candidate;
      if accepts(candidate) { rows := rows + [candidate]; } else { rejected := rejected + 1; }
    }
    assert all[..|data|] == all;
    r := Imported(rows, rejected);
  }

  // ---------------------------------------------------------------------------
  // Exporting, and reading it back
  // ---------------------------------------------------------------------------

  datatype Export = Export(title: string, origin: string, username: string, password: string, notes: string)

  const HEADER := "name,url,username,password,note"

  function Values(item: Export): seq<string> {
    [item.title, item.origin, item.username, item.password, item.notes]
  }

  function CsvLines(items: seq<Export>): seq<string> {
    [HEADER] + seq(|items|, i requires 0 <= i < |items| => Row(Values(items[i])))
  }

  /** `itemsToCsv`. */
  function ItemsToCsv(items: seq<Export>): string {
    Join(CsvLines(items))
  }

  /** The login an exported item comes back as. */
  function Returned(item: Export): Login {
    Login(Trim(item.origin, JsSpace), Trim(item.username, JsSpace), Trim(item.password, JsSpace),
          OrUndefined(Trim(item.title, JsSpace)), OrUndefined(Trim(item.notes, JsSpace)))
  }

  function ReturnedAll(items: seq<Export>): seq<Login> {
    seq(|items|, i requires 0 <= i < |items| => Returned(items[i]))
  }

  ghost predicate NewlineFree(item: Export) {
    forall v :: v in Values(item) ==> '\n' !in v
  }

  /** `toLowerCase` leaves lower-case ASCII letters alone. */
  ghost predicate Lowercases(lower: string -> string) {
    forall s :: (forall i :: 0 <= i < |s| ==> 'a' <= s[i] <= 'z') ==> lower(s) == s
  }

  lemma {:induction false} EscapeNewline(v: string)
    requires '\n' !in v
    ensures '\n' !in Escape(v)
  {
    if v != "" {
      assert v[0] in v;
      EscapeNewline(v[1..]);
    }
  }

  /** A written row is one line, and not blank. */
  lemma {:induction false} RowIsLine(values: seq<string>)
    requires values != [] && forall v :: v in values ==> '\n' !in v
    ensures OneLine(Row(values)) && Row(values)[0] == QUOTE && Row(values)[|Row(values)| - 1] == QUOTE
  {
    assert values[0] in values;
    EscapeNewline(values[0]);
    if |values| > 1 {
      forall v | v in values[1..] ensures '\n' !in v { assert v in values; }
      RowIsLine(values[1..]);
    }
  }

  lemma {:induction false} NotBlank(s: string)
    requires s != "" && !JsSpace(s[0])
    ensures !Blank(s)
  {
    assert TrimStart(s, JsSpace) == s;
    KeepsHead(s);
  }

  lemma {:induction false} KeepsHead(s: string)
    requires s != "" && !JsSpace(s[0])
    ensures TrimEnd(s, JsSpace) != ""
  {
    if JsSpace(s[|s| - 1]) { KeepsHead(s[..|s| - 1]); }
  }

  lemma HeaderLine()
    ensures OneLine(HEADER) && HEADER[0] == 'n'
  {}

  /** All lines of an export are kept by the importer. */
  lemma ExportedLines(items: seq<Export>)
    requires forall i :: 0 <= i < |items| ==> NewlineFree(items[i])
    ensures DataLines(ItemsToCsv(items)) == CsvLines(items)
  {
    var lines := CsvLines(items);
    HeaderLine();
    forall i | 0 <= i < |lines| ensures OneLine(lines[i]) && !Blank(lines[i]) {
      if i > 0 { RowIsLine(Values(items[i - 1])); }
      NotBlank(lines[i]);
    }
    LinesOfJoin(lines);
    JoinHead(lines);
    FilterAll(lines, line => !Blank(line));
  }

  lemma {:induction false} JoinHead(lines: seq<string>)
    requires lines != [] && lines[0] != ""
    ensures Join(lines) != "" && Join(lines)[0] == lines[0][0]
  {
    if |lines| > 1 { JoinHead(lines[..|lines| - 1]); }
  }

  const HEADERS: seq<string> := ["name", "url", "username", "password", "note"]

  predicate Letters(s: string) {
    s != "" && forall i :: 0 <= i < |s| ==> 'a' <= s[i] <= 'z'
  }

  lemma {:induction false} ScanLetters(v: string, rest: string, done: seq<string>, current: string)
    requires forall i :: 0 <= i < |v| ==> 'a' <= v[i] <= 'z'
    ensures Scan(v + rest, Cells(done, current, false)) == Scan(rest, Cells(done, current + v, false))
  {
    if v == "" {
      assert v + rest == rest && current + v == current;
    } else {
      assert (v + rest)[1..] == v[1..] + rest;
      ScanLetters(v[1..], rest, done, current + [v[0]]);
      assert current + [v[0]] + v[1..] == current + v;
    }
  }

  predicate AllLetters(words: seq<string>) {
    forall i :: 0 <= i < |words| ==> Letters(words[i])
  }

  /** Words joined by commas. */
  function Words(words: seq<string>): string {
    if words == [] then "" else if |words| == 1 then words[0] else words[0] + [','] + Words(words[1..])
  }

  lemma ScanWord(word: string, rest: string, done: seq<string>)
    requires Letters(word)
    ensures Scan(word + [','] + rest, Cells(done, "", false)) == Scan(rest, Cells(done + [word], "", false))
    ensures Scan(word, Cells(done, "", false)) == done + [word]
  {
    ScanLetters(word, [','] + rest, done, "");
    ScanLetters(word, "", done, "");
    assert "" + word == word && word + "" == word && word + [','] + rest == word + ([','] + rest);
    assert ([','] + rest)[1..] == rest;
  }

  lemma {:induction false} ScanWords(words: seq<string>, done: seq<string>)
    requires words != [] && AllLetters(words)
    ensures Scan(Words(words), Cells(done, "", false)) == done + words
  {
    var word, rest := words[0], words[1..];
    assert words == [word] + rest;
    if rest == [] {
      ScanWord(word, "", done);
    } else {
      ScanWord(word, Words(rest), done);
      ScanWords(rest, done + [word]);
      assert done + words == done + [word] + rest;
    }
  }

  lemma WordsCons(word: string, rest: seq<string>)
    requires rest != []
    ensures Words([word] + rest) == word + [','] + Words(rest)
  {
    assert ([word] + rest)[1..] == rest;
  }

  lemma HeaderTail()
    ensures Words(["username", "password", "note"]) == "username,password,note"
  {
    WordsCons("password", ["note"]);
    WordsCons("username", ["password", "note"]);
    assert ["password"] + ["note"] == ["password", "note"];
    assert ["username"] + ["password", "note"] == ["username", "password", "note"];
    assert "password" + [','] + "note" == "password,note";
    assert "username" + [','] + "password,note" == "username,password,note";
  }

  lemma HeaderRest()
    ensures Words(["url", "username", "password", "note"]) == "url,username,password,note"
  {
    HeaderTail();
    WordsCons("url", ["username", "password", "note"]);
    assert ["url"] + ["username", "password", "note"] == ["url", "username", "password", "note"];
    assert "url" + [','] + "username,password,note" == "url,username,password,note";
  }

  lemma HeaderIsWords()
    ensures HEADER == Words(HEADERS)
  {
    HeaderRest();
    WordsCons("name", ["url", "username", "password", "note"]);
    assert ["name"] + ["url", "username", "password", "note"] == HEADERS;
    assert "name" + [','] + "url,username,password,note" == HEADER;
  }

  lemma HeaderLetters(i: nat)
    requires i < |HEADERS|
    ensures Letters(HEADERS[i])
  {
    if i == 0 {} else if i == 1 {} else if i == 2 {} else if i == 3 {}
  }

  lemma TrimLetters(s: string)
    requires Letters(s)
    ensures Trim(s, JsSpace) == s && Underscored(s) == s
  {}

  lemma WordNormal(word: string, lower: string -> string)
    requires Lowercases(lower) && Letters(word)
    ensures NormalizeHeader(Trim(word, JsSpace), lower) == word
  {
    TrimLetters(word);
  }

  lemma SplitWords(words: seq<string>)
    requires words != [] && AllLetters(words)
    ensures Split(Words(words)) == TrimAll(words)
  {
    ScanWords(words, []);
    assert [] + words == words;
  }

  lemma NormalizeWords(words: seq<string>, lower: string -> string)
    requires Lowercases(lower) && AllLetters(words)
    ensures NormalizeAll(TrimAll(words), lower) == words
  {
    forall i | 0 <= i < |words| ensures NormalizeHeader(Trim(words[i], JsSpace), lower) == words[i] {
      WordNormal(words[i], lower);
    }
  }

  /** The header line is read as the five names. */
  lemma HeadersRead(lower: string -> string)
    requires Lowercases(lower)
    ensures NormalizeAll(Split(HEADER), lower) == HEADERS
  {
    forall i | 0 <= i < |HEADERS| ensures Letters(HEADERS[i]) { HeaderLetters(i); }
    HeaderIsWords();
    SplitWords(HEADERS);
    NormalizeWords(HEADERS, lower);
  }

  lemma {:induction false} CellAt(headers: seq<string>, values: seq<string>, k: nat)
    requires NoDup(headers) && k < |headers| == |values|
    ensures Cell(headers, values, headers[k]) == values[k]
  {
    var n := |headers| - 1;
    if k < n {
      CellAt(headers[..n], values[..n], k);
      CellShorter(headers[..n], values, headers[k]);
    }
  }

  lemma {:induction false} CellShorter(headers: seq<string>, values: seq<string>, name: string)
    requires |headers| <= |values|
    ensures Cell(headers, values, name) == Cell(headers, values[..|headers|], name)
  {
    if headers != [] {
      var n := |headers| - 1;
      CellShorter(headers[..n], values, name);
      CellShorter(headers[..n], values[..n + 1], name);
      assert values[..n + 1][..n] == values[..n];
    }
  }

  lemma {:induction false} CellMissing(headers: seq<string>, values: seq<string>, name: string)
    requires name !in headers
    ensures Cell(headers, values, name) == ""
  {
    if headers != [] { CellMissing(headers[..|headers| - 1], values, name); }
  }

  lemma HeadersDistinct()
    ensures NoDup(HEADERS)
    ensures forall name :: name in ["origin", "website", "signon_realm", "login", "email", "title", "notes"] ==> name !in HEADERS
  {
    var missing := ["origin", "website", "signon_realm", "login", "email", "title", "notes"];
    assert "name"[1] != "note"[1] && "username"[0] != "password"[0];
    forall name | name in missing ensures name !in HEADERS {
      assert "login"[0] != "email"[0];
    }
  }

  /** A row under the exported header is picked apart by position. */
  lemma CandidateOf(values: seq<string>)
    requires |values| == 5
    ensures Candidate(HEADERS, values) ==
            Login(values[1], values[2], values[3], OrUndefined(values[0]), OrUndefined(values[4]))
  {
    HeadersDistinct();
    CellAt(HEADERS, values, 0);
    CellAt(HEADERS, values, 1);
    CellAt(HEADERS, values, 2);
    CellAt(HEADERS, values, 3);
    CellAt(HEADERS, values, 4);
    PickFirst(values, ["url", "origin", "website", "signon_realm"]);
    PickFirst(values, ["username", "login", "email"]);
    PickFirst(values, ["password"]);
    PickFirst(values, ["name", "title"]);
    CellMissing(HEADERS, values, "notes");
    assert ["notes", "note"][1..] == ["note"];
    PickFirst(values, ["note"]);
  }

  lemma {:induction false} PickFirst(values: seq<string>, names: seq<string>)
    requires names != [] && forall i :: 1 <= i < |names| ==> names[i] !in HEADERS
    ensures Pick(HEADERS, values, names) == Cell(HEADERS, values, names[0])
  {
    PickMissing(values, names[1..]);
  }

  lemma {:induction false} PickMissing(values: seq<string>, names: seq<string>)
    requires forall i :: 0 <= i < |names| ==> names[i] !in HEADERS
    ensures Pick(HEADERS, values, names) == ""
  {
    if names != [] {
      CellMissing(HEADERS, values, names[0]);
      PickMissing(values, names[1..]);
    }
  }

  /**
   * Importing an export of newline-free items: the accepted logins in order, each field trimmed, and one rejection
   * for every other item.
   */
  lemma RoundTrip(items: seq<Export>, lower: string -> string, accepts: Login -> bool)
    requires Lowercases(lower) && forall i :: 0 <= i < |items| ==> NewlineFree(items[i])
    ensures var r := Parsed(ItemsToCsv(items), lower, accepts);
            r.rows == Filter(ReturnedAll(items), accepts) && |r.rows| + r.rejected == |items|
  {
    ExportedLines(items);
    HeadersRead(lower);
    CandidatesOfExport(items);
  }

  lemma CandidatesOfExport(items: seq<Export>)
    ensures Candidates(HEADERS, CsvLines(items)[1..]) == ReturnedAll(items)
  {
    var data := CsvLines(items)[1..];
    forall i | 0 <= i < |items| ensures Candidate(HEADERS, Split(data[i])) == Returned(items[i]) {
      RowReturns(items[i]);
    }
  }

  lemma RowReturns(item: Export)
    ensures Candidate(HEADERS, Split(Row(Values(item)))) == Returned(item)
  {
    SplitRow(Values(item));
    CandidateOf(TrimAll(Values(item)));
  }

  /** What an item is meant to come back as. */
  function Meant(item: Export): Login {
    Login(item.origin, item.username, item.password, OrUndefined(item.title), OrUndefined(item.notes))
  }

  ghost predicate Trimmed(item: Export) {
    forall v :: v in Values(item) ==> Trim(v, JsSpace) == v
  }

  /** The fields survive if and only if they are trimmed already. */
  lemma SameExactlyWhenTrimmed(item: Export)
    ensures Returned(item) == Meant(item) <==> Trimmed(item)
  {
    var values := Values(item);
    assert values[0] in values && values[1] in values && values[2] in values && values[3] in values && values[4] in values;
  }

  predicate NoLineFeed(cells: seq<string>) {
    forall i :: 0 <= i < |cells| ==> '\n' !in cells[i]
  }

  lemma {:induction false} LinesHaveNone(s: string)
    ensures NoLineFeed(Lines(s))
  {
    if s != "" { LinesHaveNone(s[..|s| - 1]); }
  }

  lemma {:induction false} ScanHasNone(rest: string, c: Cells)
    requires '\n' !in rest && NoLineFeed(c.done) && '\n' !in c.current
    ensures NoLineFeed(Scan(rest, c))
    decreases |rest|
  {
    if rest == "" {
    } else if rest[0] == QUOTE && c.quoted && |rest| > 1 && rest[1] == QUOTE {
      ScanHasNone(rest[2..], c.(current := c.current + [QUOTE]));
    } else if rest[0] == QUOTE {
      ScanHasNone(rest[1..], c.(quoted := !c.quoted));
    } else if rest[0] == ',' && !c.quoted {
      ScanHasNone(rest[1..], Cells(c.done + [c.current], "", false));
    } else {
      assert rest[0] in rest;
      ScanHasNone(rest[1..], c.(current := c.current + [rest[0]]));
    }
  }

  lemma SplitHasNone(line: string)
    requires '\n' !in line
    ensures NoLineFeed(Split(line))
  {
    ScanHasNone(line, EMPTY);
    var cells := Scan(line, EMPTY);
    forall i | 0 <= i < |cells| ensures '\n' !in Trim(cells[i], JsSpace) {
      var front, end := TrimCuts(cells[i], JsSpace);
      forall c | c in Trim(cells[i], JsSpace) ensures c in cells[i] {}
    }
  }

  lemma {:induction false} CellHasNone(headers: seq<string>, values: seq<string>, name: string)
    requires NoLineFeed(values)
    ensures '\n' !in Cell(headers, values, name)
  {
    if headers != [] { CellHasNone(headers[..|headers| - 1], values, name); }
  }

  lemma {:induction false} PickHasNone(headers: seq<string>, values: seq<string>, names: seq<string>)
    requires NoLineFeed(values)
    ensures '\n' !in Pick(headers, values, names)
  {
    if names != [] {
      CellHasNone(headers, values, names[0]);
      PickHasNone(headers, values, names[1..]);
    }
  }

  predicate LoginOneLine(login: Login) {
    '\n' !in login.origin && '\n' !in login.username && '\n' !in login.password &&
    '\n' !in login.title.Or("") && '\n' !in login.notes.Or("")
  }

  lemma CandidateHasNone(headers: seq<string>, values: seq<string>)
    requires NoLineFeed(values)
    ensures LoginOneLine(Candidate(headers, values))
  {
    PickHasNone(headers, values, ["url", "origin", "website", "signon_realm"]);
    PickHasNone(headers, values, ["username", "login", "email"]);
    PickHasNone(headers, values, ["password"]);
    PickHasNone(headers, values, ["name", "title"]);
    PickHasNone(headers, values, ["notes", "note"]);
  }

  /** No import ever yields a field with a line feed in it, whatever the file. */
  lemma ImportsAreOneLine(csv: string, lower: string -> string, accepts: Login -> bool, login: Login)
    requires login in Parsed(csv, lower, accepts).rows
    ensures LoginOneLine(login)
  {
    var lines := DataLines(csv);
    var headers, data := NormalizeAll(Split(lines[0]), lower), lines[1..];
    LinesHaveNone(WithoutMark(csv));
    FilterIn(Lines(WithoutMark(csv)), line => !Blank(line));
    FilterIn(Candidates(headers, data), accepts);
    var i :| 0 <= i < |data| && Candidates(headers, data)[i] == login;
    assert data[i] in lines && data[i] in Lines(WithoutMark(csv));
    SplitHasNone(data[i]);
    CandidateHasNone(headers, Split(data[i]));
  }

  /** So an exported item with a line feed in a field never comes back as it was. */
  lemma LineFeedLosesItem(items: seq<Export>, item: Export, lower: string -> string, accepts: Login -> bool)
    requires !NewlineFree(item)
    ensures Meant(item) !in Parsed(ItemsToCsv(items), lower, accepts).rows
  {
    if Meant(item) in Parsed(ItemsToCsv(items), lower, accepts).rows {
      ImportsAreOneLine(ItemsToCsv(items), lower, accepts, Meant(item));
    }
  }

  function MeantAll(items: seq<Export>): (r: seq<Login>)
    ensures |r| == |items|
  {
    seq(|items|, i requires 0 <= i < |items| => Meant(items[i]))
  }

  lemma {:induction false} FilterKeepsAll<T>(s: seq<T>, keep: T -> bool)
    ensures |Filter(s, keep)| <= |s|
    ensures |Filter(s, keep)| == |s| ==> forall i :: 0 <= i < |s| ==> keep(s[i])
  {
    if s != [] { FilterKeepsAll(s[..|s| - 1], keep); }
  }

  ghost predicate AllComeBack(items: seq<Export>, accepts: Login -> bool) {
    forall i :: 0 <= i < |items| ==> NewlineFree(items[i]) && Trimmed(items[i]) && accepts(Meant(items[i]))
  }

  lemma AllNewlineFree(items: seq<Export>, lower: string -> string, accepts: Login -> bool)
    requires Parsed(ItemsToCsv(items), lower, accepts).rows == MeantAll(items)
    ensures forall i :: 0 <= i < |items| ==> NewlineFree(items[i])
  {
    forall i | 0 <= i < |items| ensures NewlineFree(items[i]) {
      assert MeantAll(items)[i] == Meant(items[i]);
      if !NewlineFree(items[i]) { LineFeedLosesItem(items, items[i], lower, accepts); }
    }
  }

  ghost predicate Matches(returned: seq<Login>, meant: seq<Login>, accepts: Login -> bool)
    requires |returned| == |meant|
  {
    forall i :: 0 <= i < |meant| ==> returned[i] == meant[i] && accepts(meant[i])
  }

  lemma KeptAsMeant(returned: seq<Login>, meant: seq<Login>, accepts: Login -> bool)
    requires |returned| == |meant|
    ensures Filter(returned, accepts) == meant <==> Matches(returned, meant, accepts)
  {
    FilterKeepsAll(returned, accepts);
    FilterAll(returned, accepts);
    if Matches(returned, meant, accepts) { assert returned == meant; }
  }

  lemma MatchesExactlyWhen(items: seq<Export>, accepts: Login -> bool)
    requires forall i :: 0 <= i < |items| ==> NewlineFree(items[i])
    ensures Matches(ReturnedAll(items), MeantAll(items), accepts) <==> AllComeBack(items, accepts)
  {
    forall i | 0 <= i < |items| ensures ReturnedAll(items)[i] == MeantAll(items)[i] <==> Trimmed(items[i]) {
      SameExactlyWhenTrimmed(items[i]);
    }
    if Matches(ReturnedAll(items), MeantAll(items), accepts) {
      forall i | 0 <= i < |items| ensures Trimmed(items[i]) && accepts(Meant(items[i])) {
        assert MeantAll(items)[i] == Meant(items[i]);
      }
    }
  }

  /**
   * An export imports as it was, every item in its place with its fields as they were, if and only if every item
   * is free of line feeds, has no field with white space at an end, and is accepted by the row schema.
   */
  lemma ComesBackExactlyWhen(items: seq<Export>, lower: string -> string, accepts: Login -> bool)
    requires Lowercases(lower)
    ensures Parsed(ItemsToCsv(items), lower, accepts).rows == MeantAll(items) <==> AllComeBack(items, accepts)
  {
    if Parsed(ItemsToCsv(items), lower, accepts).rows == MeantAll(items) {
      AllNewlineFree(items, lower, accepts);
    }
    if forall i :: 0 <= i < |items| ==> NewlineFree(items[i]) {
      RoundTrip(items, lower, accepts);
      KeptAsMeant(ReturnedAll(items), MeantAll(items), accepts);
      MatchesExactlyWhen(items, accepts);
    }
  }

  /** The data lines of an export, whatever is in its rows. */
  function RowLines(items: seq<Export>): seq<string> {
    Filter(Lines(Join(CsvLines(items)[1..])), line => !Blank(line))
  }

  lemma HeaderFirst(items: seq<Export>)
    requires items != []
    ensures DataLines(ItemsToCsv(items)) == [HEADER] + RowLines(items)
  {
    var rows, kept := CsvLines(items)[1..], line => !Blank(line);
    HeaderLine();
    JoinHead(CsvLines(items));
    assert CsvLines(items) == [HEADER] + rows;
    FirstLine(HEADER, rows);
    NotBlank(HEADER);
    FilterConcat([HEADER], Lines(Join(rows)), kept);
    FilterAll([HEADER], kept);
  }

  lemma RowKept(items: seq<Export>, i: nat)
    requires i < |items| && NewlineFree(items[i])
    ensures Row(Values(items[i])) in RowLines(items)
  {
    var rows, line := CsvLines(items)[1..], Row(Values(items[i]));
    assert rows == rows[..i] + ([line] + rows[i + 1..]);
    RowIsLine(Values(items[i]));
    NotBlank(line);
    LineStays(rows[..i], line, rows[i + 1..]);
    FilterIn(Lines(Join(rows)), line => !Blank(line));
  }

  lemma LineGives(headers: seq<string>, data: seq<string>, line: string)
    requires line in data
    ensures Candidate(headers, Split(line)) in Candidates(headers, data)
  {
    var k :| 0 <= k < |data| && data[k] == line;
    assert Candidates(headers, data)[k] == Candidate(headers, Split(line));
  }

  /** An accepted item without a line feed comes back, each field trimmed, whatever the other items hold. */
  lemma ItemComesBack(items: seq<Export>, i: nat, lower: string -> string, accepts: Login -> bool)
    requires Lowercases(lower) && i < |items| && NewlineFree(items[i]) && accepts(Returned(items[i]))
    ensures Returned(items[i]) in Parsed(ItemsToCsv(items), lower, accepts).rows
  {
    HeaderFirst(items);
    HeadersRead(lower);
    RowKept(items, i);
    RowReturns(items[i]);
    LineGives(HEADERS, RowLines(items), Row(Values(items[i])));
    FilterIn(Candidates(HEADERS, RowLines(items)), accepts);
    assert ([HEADER] + RowLines(items))[1..] == RowLines(items);
  }
}
