/**
 The result table of one DeepFlow run: how it is printed, and how it is read back
 from a log that ends with it.
 */
module ResultTable {
  import opened Options
  import opened Text

  /** `T` stands for Python's floats. */
  datatype Row<T> = Row(size: int, request: T, transfer: T)

  // ---------- Printing ----------

  const HEADER := "| Data Size | Requests/sec | Transfer/sec |\n"
  const RULE := "|-----------|--------------|--------------|\n"

  function Spaces(n: nat): string { seq(n, _ => ' ') }

  function Pad(s: string, n: nat): string {
    if |s| < n then s + Spaces(n - |s|) else s
  }

  function SizeText(size: nat): string {
    if size >= 1024 then Decimal(size / 1024) + " KB" else Decimal(size) + " B"
  }

  /** A row with the given cells. */
  function RowOf(a: string, b: string, c: string): string {
    "|" + a + "|" + b + "|" + c + "|\n"
  }

  function RowText<T>(render: T -> string, row: Row<T>): string
    requires row.size >= 0
  {
    RowOf(Pad(SizeText(row.size), 11), Pad(render(row.request), 14), Pad(render(row.transfer) + "MB", 14))
  }

  predicate Printable<T>(rows: seq<Row<T>>) { forall i :: 0 <= i < |rows| ==> rows[i].size >= 0 }

  /** A padded text: the text, then spaces up to the width if it is shorter. */
  lemma PadIs(s: string, n: nat)
    ensures var p := Pad(s, n);
      && |p| == (if |s| < n then n else |s|) && s <= p
      && forall i :: |s| <= i < |p| ==> p[i] == ' '
  {
  }

  /** The bars of a line of the table stand where those of the header do, and the line is as
      long as the header. */
  predicate InColumns(line: string) {
    && |line| == 44 && line[0] == '|' && line[12] == '|' && line[27] == '|' && line[42] == '|' && line[43] == '\n'
    && forall i :: 0 < i < 42 && i != 12 && i != 27 ==> line[i] != '|'
  }

  lemma CellsInColumns(a: string, b: string, c: string)
    requires |a| == 11 && |b| == |c| == 14 && '|' !in a && '|' !in b && '|' !in c
    ensures InColumns(RowOf(a, b, c))
    ensures RowOf(a, b, c)[1..12] == a && RowOf(a, b, c)[13..27] == b && RowOf(a, b, c)[28..42] == c
  {
    var line := RowOf(a, b, c);
    assert line[1..12] == a && line[13..27] == b && line[28..42] == c;
    forall i | 0 < i < 42 && i != 12 && i != 27 ensures line[i] != '|' {
      if i < 12 { assert line[i] == a[i - 1] && a[i - 1] in a; }
      if 12 < i < 27 { assert line[i] == b[i - 13] && b[i - 13] in b; }
      if 27 < i { assert line[i] == c[i - 28] && c[i - 28] in c; }
    }
  }

  /** The header is a row of titles, and the rule one of dashes. */
  lemma HeaderIsRow()
    ensures HEADER == RowOf(" Data Size ", " Requests/sec ", " Transfer/sec ")
  {
  }

  lemma RuleIsRow()
    ensures RULE == RowOf("-----------", "--------------", "--------------")
  {
  }

  lemma HeaderInColumns()
    ensures InColumns(HEADER) && InColumns(RULE)
  {
    HeaderIsRow();
    RuleIsRow();
    CellsInColumns(" Data Size ", " Requests/sec ", " Transfer/sec ");
    CellsInColumns("-----------", "--------------", "--------------");
  }

  /** The printed rows. */
  function RowLines<T>(render: T -> string, rows: seq<Row<T>>): seq<string>
    requires Printable(rows)
  {
    seq(|rows|, i requires 0 <= i < |rows| => RowText(render, rows[i]))
  }

  function Concat(lines: seq<string>): string {
    if lines == [] then "" else Concat(lines[..|lines| - 1]) + lines[|lines| - 1]
  }

  method PrintTable<T>(render: T -> string, rows: seq<Row<T>>) returns (buf: string)
    requires Printable(rows)
    ensures buf == HEADER + RULE + Concat(RowLines(render, rows)) + "\n"
  {
    buf := HEADER;
    buf := buf + RULE;
    ghost var head := buf;
    ghost var lines := RowLines(render, rows);
    for i := 0 to |rows|
      invariant buf == head + Concat(lines[..i])
    {
      assert lines[..i + 1][..i] == lines[..i];
      JoinAssociative(head, Concat(lines[..i]), lines[i]);
      buf := buf + RowText(render, rows[i]);
    }
    assert lines[..|lines|] == lines;
    buf := buf + "\n";
  }

  lemma JoinAssociative(a: string, b: string, c: string)
    ensures (a + b) + c == a + (b + c)
  {
  }

  // ---------- Reading ----------

  /** s[:-n] */
  function DropLast(s: string, n: nat): string { if |s| < n then [] else s[..|s| - n] }

  /** s[1:-2] */
  function Inner(s: string): string { if |s| < 3 then [] else s[1..|s| - 2] }

  /** One row; None where Python raises ValueError. */
  function ParseRow<T>(parseFloat: string -> Option<T>, sec: string): Option<Row<T>> {
    var parts := Split(Inner(sec), '|');
    if |parts| != 3 then None
    else
      var a, b, c := Strip(parts[0]), Strip(parts[1]), Strip(parts[2]);
      match (ParseInt(Strip(DropLast(a, 2))), parseFloat(b), parseFloat(DropLast(c, 2)))
      case (Some(size), Some(req), Some(trans)) => Some(Row(size, req, trans))
      case _ => None
  }

  function RowParser<T>(parseFloat: string -> Option<T>): string -> Option<Row<T>> {
    sec => ParseRow(parseFloat, sec)
  }

  function ParseAll<A>(parse: string -> Option<A>, lines: seq<string>): Option<seq<A>> {
    if lines == [] then Some([])
    else match (ParseAll(parse, lines[..|lines| - 1]), parse(lines[|lines| - 1]))
      case (Some(rows), Some(row)) => Some(rows + [row])
      case _ => None
  }

  /** The lines up to the last one that is not blank. */
  function DropBlank(lines: seq<string>): seq<string> {
    if lines != [] && Strip(lines[|lines| - 1]) == "" then DropBlank(lines[..|lines| - 1]) else lines
  }

  /** lines[-6:] */
  function LastSix<T>(xs: seq<T>): seq<T> { if |xs| < 6 then xs else xs[|xs| - 6..] }

  /** None where Python raises: no line that is not blank, or a malformed row. */
  function Parsed<T>(parseFloat: string -> Option<T>, text: string): Option<seq<Row<T>>> {
    var lines := DropBlank(Lines(text));
    if lines == [] then None else ParseAll(RowParser(parseFloat), LastSix(lines))
  }

  method ParseFile<T>(parseFloat: string -> Option<T>, text: string) returns (result: Option<seq<Row<T>>>)
    ensures result == Parsed(parseFloat, text)
  {
    var lines := Lines(text);
    while lines != [] && Strip(lines[|lines| - 1]) == ""
      invariant DropBlank(lines) == DropBlank(Lines(text))
    {
      lines := lines[..|lines| - 1];
    }
    if lines == [] {
      return None;  // IndexError on lines[-1]
    }
    result := ParseLines(RowParser(parseFloat), LastSix(lines));
  }

  /** The loop over the last lines; it stops at the first error. */
  method ParseLines<A>(parse: string -> Option<A>, lines: seq<string>) returns (result: Option<seq<A>>)
    ensures result == ParseAll(parse, lines)
  {
    var rows: seq<A> := [];
    for i := 0 to |lines|
      invariant ParseAll(parse, lines[..i]) == Some(rows)
    {
      assert lines[..i + 1][..i] == lines[..i];
      var row := parse(lines[i]);
      if row.None? {
        FailureStays(parse, lines, i + 1);
        return None;
      }
      rows := rows + [row.value];
    }
    assert lines[..|lines|] == lines;
    return Some(rows);
  }

  lemma {:induction false} FailureStays<A>(parse: string -> Option<A>, lines: seq<string>, i: nat)
    requires i <= |lines| && ParseAll(parse, lines[..i]).None?
    ensures ParseAll(parse, lines).None?
    decreases |lines|
  {
    if i == |lines| {
      assert lines[..i] == lines;
    } else {
      assert lines[..|lines| - 1][..i] == lines[..i];
      FailureStays(parse, lines[..|lines| - 1], i);
    }
  }

  /** What is left of the lines: all up to the last that is not blank. */
  lemma {:induction false} DropBlankIs(lines: seq<string>)
    ensures var kept := DropBlank(lines);
      && kept <= lines && (kept != [] ==> !AllSpace(kept[|kept| - 1]))
      && forall i :: |kept| <= i < |lines| ==> AllSpace(lines[i])
  {
    if lines != [] {
      StripEmptyIffBlank(lines[|lines| - 1]);
      if AllSpace(lines[|lines| - 1]) {
        DropBlankIs(lines[..|lines| - 1]);
      }
    }
  }

  lemma {:induction false} ParseAllIs<A>(parse: string -> Option<A>, lines: seq<string>)
    ensures ParseAll(parse, lines).Some? <==> forall i :: 0 <= i < |lines| ==> parse(lines[i]).Some?
    ensures ParseAll(parse, lines).Some? ==>
      && |ParseAll(parse, lines).value| == |lines|
      && forall i :: 0 <= i < |lines| ==> parse(lines[i]) == Some(ParseAll(parse, lines).value[i])
  {
    if lines != [] {
      var front, last := lines[..|lines| - 1], lines[|lines| - 1];
      ParseAllIs(parse, front);
      assert forall i :: 0 <= i < |front| ==> lines[i] == front[i];
    }
  }

  lemma {:induction false} ParseAllLength<A>(parse: string -> Option<A>, lines: seq<string>)
    requires ParseAll(parse, lines).Some?
    ensures |ParseAll(parse, lines).value| == |lines|
  {
    ParseAllIs(parse, lines);
  }

  lemma {:induction false} ParseAllAt<A>(parse: string -> Option<A>, lines: seq<string>, k: nat)
    requires ParseAll(parse, lines).Some? && k < |lines|
    ensures |ParseAll(parse, lines).value| == |lines| && parse(lines[k]) == Some(ParseAll(parse, lines).value[k])
  {
    ParseAllIs(parse, lines);
  }

  /** The last six lines, or all if there are fewer, are rows. */
  ghost predicate EndsInRows<T>(parseFloat: string -> Option<T>, lines: seq<string>) {
    forall i :: 0 <= i < |lines| && i >= |lines| - 6 ==> ParseRow(parseFloat, lines[i]).Some?
  }

  lemma {:induction false} LastSixAt<T>(parseFloat: string -> Option<T>, lines: seq<string>, k: nat)
    requires k < |LastSix(lines)|
    ensures RowParser(parseFloat)(LastSix(lines)[k]) == ParseRow(parseFloat, lines[|lines| - |LastSix(lines)| + k])
  {
  }

  lemma {:induction false} LastSixReadIff<T>(parseFloat: string -> Option<T>, lines: seq<string>)
    ensures ParseAll(RowParser(parseFloat), LastSix(lines)).Some? <==> EndsInRows(parseFloat, lines)
  {
    var six, parse := LastSix(lines), RowParser(parseFloat);
    ParseAllIs(parse, six);
    if EndsInRows(parseFloat, lines) {
      forall i | 0 <= i < |six| ensures parse(six[i]).Some? {
        LastSixAt(parseFloat, lines, i);
      }
    } else {
      var i :| 0 <= i < |lines| && i >= |lines| - 6 && ParseRow(parseFloat, lines[i]).None?;
      LastSixAt(parseFloat, lines, i - (|lines| - |six|));
    }
  }

  /** `rows` is what the last lines are read as. */
  ghost predicate ReadAs<T>(parseFloat: string -> Option<T>, lines: seq<string>, rows: seq<Row<T>>) {
    && |rows| == (if |lines| < 6 then |lines| else 6)
    && forall k :: 0 <= k < |rows| ==> ReadAt(parseFloat, lines[|lines| - |rows| + k], rows[k])
  }

  ghost predicate ReadAt<T>(parseFloat: string -> Option<T>, line: string, row: Row<T>) {
    ParseRow(parseFloat, line).Some? && ParseRow(parseFloat, line).value == row
  }

  lemma {:induction false} LastSixReadAs<T>(parseFloat: string -> Option<T>, lines: seq<string>)
    requires ParseAll(RowParser(parseFloat), LastSix(lines)).Some?
    ensures ReadAs(parseFloat, lines, ParseAll(RowParser(parseFloat), LastSix(lines)).value)
  {
    var six, parse := LastSix(lines), RowParser(parseFloat);
    var rows := ParseAll(parse, six).value;
    ParseAllLength(parse, six);
    forall k | 0 <= k < |rows| ensures ReadAt(parseFloat, lines[|lines| - |rows| + k], rows[k]) {
      ParseAllAt(parse, six, k);
      LastSixAt(parseFloat, lines, k);
    }
  }

  /** Which texts are read, and as what: some line is not blank, and the last six lines up to
      that one, or all if there are fewer, are rows; these are the result, in order. */
  lemma {:induction false} ParsedIff<T>(parseFloat: string -> Option<T>, text: string)
    ensures var lines, result := DropBlank(Lines(text)), Parsed(parseFloat, text);
      && (result.Some? <==> lines != [] && EndsInRows(parseFloat, lines))
      && (result.Some? ==> ReadAs(parseFloat, lines, result.value))
  {
    var lines := DropBlank(Lines(text));
    LastSixReadIff(parseFloat, lines);
    if lines != [] && EndsInRows(parseFloat, lines) {
      LastSixReadAs(parseFloat, lines);
    }
  }

  // ---------- The round trip ----------

  /** How a number may be rendered. */
  predicate Token(s: string) { s != [] && NoSpace(s) && '|' !in s }

  /** The numbers of a row are rendered as tokens and read back exactly. */
  ghost predicate Faithful<T>(render: T -> string, parseFloat: string -> Option<T>, row: Row<T>) {
    && Token(render(row.request)) && parseFloat(render(row.request)) == Some(row.request)
    && Token(render(row.transfer)) && parseFloat(render(row.transfer)) == Some(row.transfer)
  }

  /** What the reader makes of a printed row: the size in KB, or in bytes below 1024. */
  function Read<T>(row: Row<T>): Row<T>
    requires row.size >= 0
  {
    row.(size := if row.size >= 1024 then row.size / 1024 else row.size)
  }

  function ReadAll<T>(rows: seq<Row<T>>): seq<Row<T>>
    requires Printable(rows)
  {
    seq(|rows|, i requires 0 <= i < |rows| => Read(rows[i]))
  }

  /** Padded cells: strip gives back the cell, and there is no bar or newline in it. */
  lemma PadCell(s: string, n: nat)
    requires s != [] && !IsSpace(s[0]) && !IsSpace(s[|s| - 1]) && '|' !in s && '\n' !in s
    ensures Strip(Pad(s, n)) == s && '|' !in Pad(s, n) && '\n' !in Pad(s, n)
  {
    var spaces := if |s| < n then Spaces(n - |s|) else [];
    assert Pad(s, n) == [] + (s + spaces);
    StripPadded([], s, spaces);
  }

  lemma UnitCell(digits: string, space: string, unit: string)
    requires digits != [] && (forall c :: c in digits ==> IsDigit(c)) && space in {"", " "}
    requires |unit| == 2 && (unit[0] in "K ") && unit[1] == 'B'
    ensures var s := digits + (space + unit);
      && s != [] && !IsSpace(s[0]) && !IsSpace(s[|s| - 1]) && '|' !in s && '\n' !in s
      && DropLast(s, 2) == digits + space
  {
    assert digits[0] in digits;
    var s := digits + (space + unit);
    assert s[..|s| - 2] == digits + space;
  }

  lemma NumberRead(n: nat, space: string)
    requires space in {"", " "}
    ensures ParseInt(Strip(Decimal(n) + space)) == Some(n)
  {
    var digits := Decimal(n);
    assert digits[0] in digits && digits[|digits| - 1] in digits;
    StripPadded("", digits, space);
    IntRoundTrip("", n, "");
    assert "" + (digits + space) == digits + space && "" + (digits + "") == digits;
  }

  /** A number with its unit, as it stands in the first cell. */
  lemma NumberCell(n: nat, unit: string)
    requires unit in {" KB", " B"}
    ensures var s := Decimal(n) + unit;
      && s != [] && !IsSpace(s[0]) && !IsSpace(s[|s| - 1]) && '|' !in s && '\n' !in s
      && ParseInt(Strip(DropLast(s, 2))) == Some(n)
  {
    if unit == " KB" {
      assert " " + "KB" == unit;
      UnitCell(Decimal(n), " ", "KB");
      NumberRead(n, " ");
    } else {
      assert "" + " B" == unit;
      UnitCell(Decimal(n), "", " B");
      NumberRead(n, "");
    }
  }

  lemma TokenEnds(s: string)
    requires Token(s)
    ensures !IsSpace(s[0]) && !IsSpace(s[|s| - 1]) && '\n' !in s
  {
    assert s[0] in s && s[|s| - 1] in s;
  }

  lemma TransferCell(s: string)
    requires Token(s)
    ensures var c := s + "MB";
      c != [] && !IsSpace(c[0]) && !IsSpace(c[|c| - 1]) && '|' !in c && '\n' !in c && DropLast(c, 2) == s
  {
    TokenEnds(s);
  }

  lemma RowOfIsOneLine(a: string, b: string, c: string)
    requires '\n' !in a && '\n' !in b && '\n' !in c
    ensures var line := RowOf(a, b, c);
      line != [] && '\n' !in line[..|line| - 1] && line[|line| - 1] == '\n' && !AllSpace(line)
  {
    var line := RowOf(a, b, c);
    assert line[..|line| - 1] == "|" + a + "|" + b + "|" + c + "|";
    assert line[0] == '|' && line[0] in line;
  }

  lemma RowOfSplits(a: string, b: string, c: string)
    requires '|' !in a && '|' !in b && '|' !in c
    ensures Split(Inner(RowOf(a, b, c)), '|') == [a, b, c]
  {
    var ab := a + ['|'] + b;
    assert Inner(RowOf(a, b, c)) == ab + ['|'] + c;
    SplitNothing(a, '|');
    SplitJoin(a, '|', b);
    SplitJoin(ab, '|', c);
  }

  /** The three cells of a printed row. */
  lemma Cells<T>(render: T -> string, row: Row<T>)
    requires row.size >= 0 && Token(render(row.request)) && Token(render(row.transfer))
    ensures var a, b, c := SizeText(row.size), render(row.request), render(row.transfer) + "MB";
      && Strip(Pad(a, 11)) == a && '|' !in Pad(a, 11) && '\n' !in Pad(a, 11)
      && Strip(Pad(b, 14)) == b && '|' !in Pad(b, 14) && '\n' !in Pad(b, 14)
      && Strip(Pad(c, 14)) == c && '|' !in Pad(c, 14) && '\n' !in Pad(c, 14)
      && ParseInt(Strip(DropLast(a, 2))) == Some(Read(row).size)
      && DropLast(c, 2) == render(row.transfer)
  {
    if row.size >= 1024 {
      NumberCell(row.size / 1024, " KB");
    } else {
      NumberCell(row.size, " B");
    }
    PadCell(SizeText(row.size), 11);
    TokenEnds(render(row.request));
    PadCell(render(row.request), 14);
    TransferCell(render(row.transfer));
    PadCell(render(row.transfer) + "MB", 14);
  }

  lemma RowIsOneLine<T>(render: T -> string, row: Row<T>)
    requires row.size >= 0 && Token(render(row.request)) && Token(render(row.transfer))
    ensures var line := RowText(render, row);
      && line != [] && '\n' !in line[..|line| - 1] && line[|line| - 1] == '\n' && !AllSpace(line)
  {
    Cells(render, row);
    RowOfIsOneLine(Pad(SizeText(row.size), 11), Pad(render(row.request), 14), Pad(render(row.transfer) + "MB", 14));
  }

  /** Which lines are read as rows: between their first character and their last two they have
      three cells; the first is a whole number and two more characters, the second a number,
      the third a number and two more characters, with any space around the cells. */
  lemma RowReadIff<T>(parseFloat: string -> Option<T>, sec: string, a: string, b: string, c: string)
    requires |sec| >= 3 && sec[1..|sec| - 2] == a + "|" + b + "|" + c && '|' !in a && '|' !in b && '|' !in c
    ensures ParseRow(parseFloat, sec).Some? <==>
      && ParseInt(Strip(DropLast(Strip(a), 2))).Some? && parseFloat(Strip(b)).Some?
      && parseFloat(DropLast(Strip(c), 2)).Some?
    ensures ParseRow(parseFloat, sec).Some? ==>
      && ParseRow(parseFloat, sec).value.request == parseFloat(Strip(b)).value
      && ParseRow(parseFloat, sec).value.transfer == parseFloat(DropLast(Strip(c), 2)).value
      && ParseRow(parseFloat, sec).value.size == ParseInt(Strip(DropLast(Strip(a), 2))).value
  {
    var ab := a + ['|'] + b;
    assert Inner(sec) == ab + ['|'] + c;
    SplitNothing(a, '|');
    SplitJoin(a, '|', b);
    SplitJoin(ab, '|', c);
  }

  /** And no line with fewer or more cells is. */
  lemma RowHasThreeCells<T>(parseFloat: string -> Option<T>, sec: string) returns (a: string, b: string, c: string)
    requires ParseRow(parseFloat, sec).Some? && |sec| >= 3
    ensures sec[1..|sec| - 2] == a + "|" + b + "|" + c && '|' !in a && '|' !in b && '|' !in c
  {
    var parts := Split(Inner(sec), '|');
    PartsMakeText(Inner(sec), '|');
    a, b, c := parts[0], parts[1], parts[2];
    assert parts[..2][..1] == [a] && parts[..2] == [a, b];
    assert JoinedBy(parts[..2], '|') == a + ['|'] + b;
  }

  lemma RowRoundTrip<T>(render: T -> string, parseFloat: string -> Option<T>, row: Row<T>)
    requires row.size >= 0 && Faithful(render, parseFloat, row)
    ensures ParseRow(parseFloat, RowText(render, row)) == Some(Read(row))
  {
    Cells(render, row);
    RowOfSplits(Pad(SizeText(row.size), 11), Pad(render(row.request), 14), Pad(render(row.transfer) + "MB", 14));
  }

  lemma PaddedCell(s: string, n: nat)
    requires |s| <= n && '|' !in s
    ensures |Pad(s, n)| == n && '|' !in Pad(s, n) && s <= Pad(s, n)
    ensures forall i :: |s| <= i < n ==> Pad(s, n)[i] == ' '
  {
    PadIs(s, n);
  }

  /** A row whose numbers fit is printed in the columns of the header: the size in KB from 1024
      on and in bytes below, the request rate, and the transfer rate in MB. */
  lemma RowInColumns<T>(render: T -> string, row: Row<T>)
    requires row.size >= 0 && Token(render(row.request)) && Token(render(row.transfer))
    requires |Decimal(if row.size >= 1024 then row.size / 1024 else row.size)| <= 8
    requires |render(row.request)| <= 14 && |render(row.transfer)| <= 12
    ensures var line := RowText(render, row);
      && InColumns(line)
      && (row.size >= 1024 ==> Decimal(row.size / 1024) + " KB" <= line[1..12])
      && (row.size < 1024 ==> Decimal(row.size) + " B" <= line[1..12])
      && render(row.request) <= line[13..27] && render(row.transfer) + "MB" <= line[28..42]
  {
    var a, b, c := SizeText(row.size), render(row.request), render(row.transfer) + "MB";
    PaddedCell(a, 11);
    PaddedCell(b, 14);
    PaddedCell(c, 14);
    CellsInColumns(Pad(a, 11), Pad(b, 14), Pad(c, 14));
  }

  /** One whole line that is not blank. */
  predicate WholeLine(line: string) {
    line != [] && '\n' !in line[..|line| - 1] && line[|line| - 1] == '\n' && !AllSpace(line)
  }

  /** One more line. */
  lemma LinesOfOneMore(text: string, line: string)
    requires WholeLine(line) && text != [] && text[|text| - 1] == '\n'
    ensures Lines(text + line) == Lines(text) + [line]
    ensures (text + line)[|text + line| - 1] == '\n'
  {
    OneLine(line);
    LinesJoin(text, line);
  }

  lemma {:induction false} LinesOfConcat(before: string, lines: seq<string>)
    requires forall i :: 0 <= i < |lines| ==> WholeLine(lines[i])
    requires before != [] && before[|before| - 1] == '\n'
    ensures var text := before + Concat(lines);
      text[|text| - 1] == '\n' && Lines(text) == Lines(before) + lines
  {
    if lines == [] {
      assert before + Concat(lines) == before;
    } else {
      var front, last := lines[..|lines| - 1], lines[|lines| - 1];
      LinesOfConcat(before, front);
      var text := before + Concat(front);
      assert WholeLine(last);
      LinesOfOneMore(text, last);
      JoinAssociative(before, Concat(front), last);
      assert before + Concat(lines) == text + last;
      RegroupLines(Lines(before), lines);
    }
  }

  lemma RegroupLines(a: seq<string>, b: seq<string>)
    requires b != []
    ensures (a + b[..|b| - 1]) + [b[|b| - 1]] == a + b
  {
  }

  lemma {:induction false} DropTrailing(lines: seq<string>, blank: seq<string>)
    requires forall i :: 0 <= i < |blank| ==> AllSpace(blank[i])
    requires lines != [] && !AllSpace(lines[|lines| - 1])
    ensures DropBlank(lines + blank) == lines
  {
    StripEmptyIffBlank((lines + blank)[|lines + blank| - 1]);
    if blank == [] {
      assert lines + blank == lines;
    } else {
      assert (lines + blank)[..|lines + blank| - 1] == lines + blank[..|blank| - 1];
      DropTrailing(lines, blank[..|blank| - 1]);
    }
  }

  lemma {:induction false} ParseEach<A>(parse: string -> Option<A>, lines: seq<string>, rows: seq<A>)
    requires |lines| == |rows| && forall i :: 0 <= i < |lines| ==> parse(lines[i]) == Some(rows[i])
    ensures ParseAll(parse, lines) == Some(rows)
  {
    if lines != [] {
      ParseEach(parse, lines[..|lines| - 1], rows[..|rows| - 1]);
      assert rows == rows[..|rows| - 1] + [rows[|rows| - 1]];
    }
  }

  /** Whole lines after any text that ends a line, and before blank text. */
  lemma LinesBetween(before: string, lines: seq<string>, after: string)
    requires lines != [] && forall i :: 0 <= i < |lines| ==> WholeLine(lines[i])
    requires before != [] && before[|before| - 1] == '\n' && AllSpace(after)
    ensures DropBlank(Lines(before + Concat(lines) + after)) == Lines(before) + lines
  {
    var text := before + Concat(lines);
    LinesOfConcat(before, lines);
    LinesJoin(text, after);
    BlankLines(after);
    var all := Lines(text);
    assert all[|all| - 1] == lines[|lines| - 1] && WholeLine(lines[|lines| - 1]);
    DropTrailing(all, Lines(after));
  }

  lemma LastSixOf<A>(xs: seq<A>, ys: seq<A>)
    requires |ys| >= 6
    ensures LastSix(xs + ys) == LastSix(ys)
  {
  }

  /** Six or more lines are read as rows. */
  lemma LastLinesParsed<T>(parseFloat: string -> Option<T>, before: string, lines: seq<string>, after: string,
                           rows: seq<Row<T>>)
    requires |lines| == |rows| >= 6 && forall i :: 0 <= i < |lines| ==> WholeLine(lines[i])
    requires forall i :: 0 <= i < |lines| ==> RowParser(parseFloat)(lines[i]) == Some(rows[i])
    requires before != [] && before[|before| - 1] == '\n' && AllSpace(after)
    ensures Parsed(parseFloat, before + Concat(lines) + after) == Some(LastSix(rows))
  {
    LinesBetween(before, lines, after);
    LastSixOf(Lines(before), lines);
    LastSixParsed(RowParser(parseFloat), lines, rows);
  }

  lemma LastSixParsed<A>(parse: string -> Option<A>, lines: seq<string>, rows: seq<A>)
    requires |lines| == |rows| >= 6 && forall i :: 0 <= i < |lines| ==> parse(lines[i]) == Some(rows[i])
    ensures ParseAll(parse, LastSix(lines)) == Some(LastSix(rows))
  {
    ParseEach(parse, LastSix(lines), LastSix(rows));
  }

  lemma RowsParsed<T>(render: T -> string, parseFloat: string -> Option<T>, rows: seq<Row<T>>, i: nat)
    requires Printable(rows) && i < |rows| && Faithful(render, parseFloat, rows[i])
    ensures WholeLine(RowLines(render, rows)[i])
    ensures RowParser(parseFloat)(RowLines(render, rows)[i]) == Some(ReadAll(rows)[i])
  {
    RowIsOneLine(render, rows[i]);
    RowRoundTrip(render, parseFloat, rows[i]);
  }

  /** The last six rows, with their sizes in KB from 1024 on. */
  ghost predicate LastSixRows<T>(rows: seq<Row<T>>, read: seq<Row<T>>) {
    |rows| >= |read| == 6 && forall k :: 0 <= k < 6 ==>
      var row := rows[|rows| - 6 + k];
      read[k] == row.(size := if row.size >= 1024 then row.size / 1024 else row.size)
  }

  lemma LastSixRead<T>(rows: seq<Row<T>>)
    requires |rows| >= 6 && Printable(rows)
    ensures LastSixRows(rows, LastSix(ReadAll(rows)))
  {
  }

  /** Reading a log that ends with a printed table, whatever comes before the table and
      with any blank text after it, gives back the last six rows. */
  lemma {:induction false} TableRoundTrip<T>(render: T -> string, parseFloat: string -> Option<T>,
                          before: string, rows: seq<Row<T>>, after: string)
    requires forall i :: 0 <= i < |rows| ==> Faithful(render, parseFloat, rows[i])
    requires |rows| >= 6 && Printable(rows) && AllSpace(after)
    ensures var result := Parsed(parseFloat, before + (HEADER + RULE + Concat(RowLines(render, rows)) + "\n") + after);
      result.Some? && LastSixRows(rows, result.value)
  {
    var lines := RowLines(render, rows);
    forall i | 0 <= i < |rows|
      ensures WholeLine(lines[i]) && RowParser(parseFloat)(lines[i]) == Some(ReadAll(rows)[i])
    {
      RowsParsed(render, parseFloat, rows, i);
    }
    HeadEndsLine(before);
    LastLinesParsed(parseFloat, before + (HEADER + RULE), lines, "\n" + after, ReadAll(rows));
    Regroup(before, HEADER + RULE, Concat(lines), "\n", after);
    LastSixRead(rows);
  }

  lemma HeadEndsLine(before: string)
    ensures var head := before + (HEADER + RULE);
      head != [] && head[|head| - 1] == '\n'
  {
  }

  lemma Regroup(a: string, b: string, c: string, d: string, e: string)
    ensures a + ((b + c) + d) + e == (a + b) + c + (d + e)
  {
  }
}
