/**
 The output of the benchmarked victim: how its blocks are printed, and how the uprobe
 benchmark reads the timings back from between other lines.
 */
module Victim {
  import opened Options
  import opened Text

  // ---------- splitlines and split() ----------

  predicate IsBreak(c: char) { c in {'\n', '\r', '\U{0b}', '\U{0c}', '\U{1c}', '\U{1d}', '\U{1e}'} }

  /** The codes of the line ends: 10 to 13, 28 to 30. */
  lemma BreakCodes(c: char)
    ensures IsBreak(c) <==> 10 <= c as int <= 13 || 28 <= c as int <= 30
  {
  }

  predicate OneLineOnly(s: string) { forall i :: 0 <= i < |s| ==> !IsBreak(s[i]) }

  /** The length of the first line, without its end. */
  function LineLength(s: string): (n: nat)
    ensures n <= |s| && OneLineOnly(s[..n]) && (n < |s| ==> IsBreak(s[n]))
  {
    if s == [] || IsBreak(s[0]) then 0 else 1 + LineLength(s[1..])
  }

  function SplitLines(s: string): seq<string>
    decreases |s|
  {
    if s == [] then []
    else
      var n := LineLength(s);
      if n == |s| then [s]
      else [s[..n]] + SplitLines(s[n + if s[n] == '\r' && n + 1 < |s| && s[n + 1] == '\n' then 2 else 1..])
  }

  lemma {:induction false} LineLengthAt(line: string, rest: string)
    requires OneLineOnly(line) && (rest == [] || IsBreak(rest[0]))
    ensures LineLength(line + rest) == |line|
  {
    if line == [] {
      assert line + rest == rest;
    } else {
      assert (line + rest)[1..] == line[1..] + rest;
      LineLengthAt(line[1..], rest);
    }
  }

  function EndLine(line: string): (s: string)
    ensures |s| == |line| + 1 && s[|line|] == '\n' && s[..|line|] == line
  {
    line + "\n"
  }

  lemma FirstLine(line: string, rest: string)
    requires OneLineOnly(line)
    ensures SplitLines(EndLine(line) + rest) == [line] + SplitLines(rest)
  {
    var s := EndLine(line) + rest;
    var after := s[|line|..];
    assert s == line + after && after[0] == '\n';
    LineLengthAt(line, after);
    assert s[..|line|] == line && s[|line| + 1..] == rest;
  }

  /** A carriage return and a newline end one line together. */
  lemma FirstLineCrLf(line: string, rest: string)
    requires OneLineOnly(line)
    ensures SplitLines(line + ("\r\n" + rest)) == [line] + SplitLines(rest)
  {
    var s := line + ("\r\n" + rest);
    LineLengthAt(line, "\r\n" + rest);
    assert s[..|line|] == line && s[|line| + 2..] == rest && s[|line|] == '\r' && s[|line| + 1] == '\n';
  }

  lemma OnlyLine(line: string)
    requires OneLineOnly(line) && line != []
    ensures SplitLines(line) == [line]
  {
    LineLengthAt(line, []);
    assert line + [] == line;
  }

  /** The length of the token at the start. */
  function TokenLength(s: string): (n: nat)
    ensures n <= |s| && (forall i :: 0 <= i < n ==> !IsSpace(s[i])) && (n < |s| ==> IsSpace(s[n]))
  {
    if s == [] || IsSpace(s[0]) then 0 else 1 + TokenLength(s[1..])
  }

  /** s.split() */
  function Fields(s: string): seq<string>
    decreases |s|
  {
    if s == [] then []
    else if IsSpace(s[0]) then Fields(s[1..])
    else
      var n := TokenLength(s);
      [s[..n]] + Fields(s[n..])
  }

  lemma {:induction false} TokenLengthAt(token: string, rest: string)
    requires NoSpace(token) && (rest == [] || IsSpace(rest[0]))
    ensures TokenLength(token + rest) == |token|
  {
    if token == [] {
      assert token + rest == rest;
    } else {
      assert (token + rest)[1..] == token[1..] + rest;
      assert token[0] in token;
      TokenLengthAt(token[1..], rest);
    }
  }

  lemma FirstField(token: string, rest: string)
    requires token != [] && NoSpace(token)
    ensures Fields(token + " " + rest) == [token] + Fields(rest)
  {
    var tail := " " + rest;
    assert token + " " + rest == token + tail;
    TokenLengthAt(token, tail);
    assert token[0] in token;
    assert (token + tail)[..|token|] == token && (token + tail)[|token|..] == tail;
    assert tail[1..] == rest;
  }

  lemma {:induction false} SpaceAfter(s: string, c: char)
    requires IsSpace(c)
    ensures Fields(s + [c]) == Fields(s)
    decreases |s|
  {
    if s == [] {
      assert Fields([c][1..]) == [];
      assert s + [c] == [c];
    } else if IsSpace(s[0]) {
      assert (s + [c])[1..] == s[1..] + [c];
      SpaceAfter(s[1..], c);
    } else {
      var n := TokenLength(s);
      assert s == s[..n] + s[n..];
      assert s + [c] == s[..n] + (s[n..] + [c]);
      TokenLengthAt(s[..n], s[n..] + [c]);
      assert (s + [c])[..n] == s[..n] && (s + [c])[n..] == s[n..] + [c];
      SpaceAfter(s[n..], c);
    }
  }

  lemma {:induction false} TrimRightFields(s: string)
    ensures Fields(TrimRight(s)) == Fields(s)
  {
    if s != [] && IsSpace(s[|s| - 1]) {
      TrimRightFields(s[..|s| - 1]);
      SpaceAfter(s[..|s| - 1], s[|s| - 1]);
      assert s == s[..|s| - 1] + [s[|s| - 1]];
    }
  }

  // ---------- The parser ----------

  const BENCHMARKING := "Benchmarking"

  predicate Starts(line: string) { BENCHMARKING <= line }

  /** The field of this number; None where Python raises IndexError. */
  function FieldAt(line: string, k: nat): Option<string> {
    if k < |Fields(line)| then Some(Fields(line)[k]) else None
  }

  function TimeAt<T>(parseFloat: string -> Option<T>, line: string): Option<T> {
    match FieldAt(line, 3) case Some(s) => parseFloat(s) case None => None
  }

  /** What the remaining lines add to the result; None where Python raises. */
  function Parsed<T>(parseFloat: string -> Option<T>, lines: seq<string>, result: map<string, T>): Option<map<string, T>>
    decreases |lines|
  {
    if lines == [] then Some(result)
    else if Starts(lines[0]) then
      if |lines| == 1 then None
      else match (FieldAt(lines[0], 1), TimeAt(parseFloat, lines[1]))
        case (Some(name), Some(time)) => Parsed(parseFloat, lines[2..], result[name := time])
        case _ => None
    else Parsed(parseFloat, lines[1..], result)
  }

  method ParseVictimOutput<T>(parseFloat: string -> Option<T>, v: string) returns (result: Option<map<string, T>>)
    ensures result == Parsed(parseFloat, SplitLines(Strip(v)), map[])
  {
    var lines := SplitLines(Strip(v));
    var i := 0;
    var times: map<string, T> := map[];
    while i < |lines|
      invariant i <= |lines|
      invariant Parsed(parseFloat, lines[i..], times) == Parsed(parseFloat, lines, map[])
    {
      var line := lines[i];
      assert lines[i..][1..] == lines[i + 1..];
      if Starts(line) {
        if i + 1 >= |lines| {
          return None;  // IndexError on lines[i + 1]
        }
        assert lines[i..][2..] == lines[i + 2..] && lines[i..][1] == lines[i + 1];
        var name, time := FieldAt(line, 1), TimeAt(parseFloat, lines[i + 1]);
        if name.None? || time.None? {
          return None;
        }
        times := times[name.value := time.value];
        i := i + 2;
      } else {
        i := i + 1;
      }
    }
    return Some(times);
  }

  // ---------- What strip does to the lines ----------

  /** Every line ended by a newline. */
  function Unlines(lines: seq<string>): string {
    if lines == [] then "" else EndLine(lines[0]) + Unlines(lines[1..])
  }

  lemma {:induction false} UnlinesJoin(a: seq<string>, b: seq<string>)
    ensures Unlines(a + b) == Unlines(a) + Unlines(b)
  {
    if a == [] {
      assert a + b == b;
    } else {
      assert (a + b)[1..] == a[1..] + b;
      UnlinesJoin(a[1..], b);
    }
  }

  /** The lines from the first that is not blank, which loses its indentation. */
  function TrimFirst(lines: seq<string>): seq<string> {
    if lines == [] then []
    else if AllSpace(lines[0]) then TrimFirst(lines[1..])
    else [TrimLeft(lines[0])] + lines[1..]
  }

  /** The lines up to the last that is not blank, which loses the space at its end. */
  function TrimLast(lines: seq<string>): seq<string> {
    if lines == [] then []
    else if AllSpace(lines[|lines| - 1]) then TrimLast(lines[..|lines| - 1])
    else lines[..|lines| - 1] + [TrimRight(lines[|lines| - 1])]
  }

  lemma {:induction false} TrimLeftLine(line: string, rest: string)
    requires !AllSpace(line)
    ensures TrimLeft(line + rest) == TrimLeft(line) + rest
  {
    if IsSpace(line[0]) {
      assert line == [line[0]] + line[1..];
      assert (line + rest)[1..] == line[1..] + rest;
      TrimLeftLine(line[1..], rest);
    }
  }

  lemma {:induction false} TrimRightBlank(s: string, blank: string)
    requires AllSpace(blank)
    ensures TrimRight(s + blank) == TrimRight(s)
  {
    if blank == [] {
      assert s + blank == s;
    } else {
      var front, last := blank[..|blank| - 1], blank[|blank| - 1];
      assert blank == front + [last];
      assert (s + blank)[..|s + blank| - 1] == s + front;
      TrimRightBlank(s, front);
    }
  }

  lemma {:induction false} TrimRightLine(s: string, line: string)
    requires !AllSpace(line)
    ensures TrimRight(s + line) == s + TrimRight(line)
  {
    var front, last := line[..|line| - 1], line[|line| - 1];
    assert line == front + [last];
    assert (s + line)[..|s + line| - 1] == s + front;
    if IsSpace(last) {
      TrimRightLine(s, front);
    }
  }

  lemma {:induction false} TrimLeftLines(lines: seq<string>)
    ensures TrimLeft(Unlines(lines)) == Unlines(TrimFirst(lines))
  {
    if lines != [] {
      var rest := Unlines(lines[1..]);
      if AllSpace(lines[0]) {
        TrimLeftBlank(EndLine(lines[0]), rest);
        TrimLeftLines(lines[1..]);
      } else {
        Regroup(lines[0], "\n", rest);
        TrimLeftLine(lines[0], "\n" + rest);
        Regroup(TrimLeft(lines[0]), "\n", rest);
        var trimmed := TrimFirst(lines);
        assert trimmed[0] == TrimLeft(lines[0]) && trimmed[1..] == lines[1..];
      }
    }
  }

  predicate AllOneLine(lines: seq<string>) { forall i :: 0 <= i < |lines| ==> OneLineOnly(lines[i]) }

  lemma Regroup(a: string, b: string, c: string)
    ensures a + b + c == a + (b + c)
  {
  }

  lemma HeadApart<A>(xs: seq<A>, y: A)
    requires xs != []
    ensures xs + [y] == [xs[0]] + (xs[1..] + [y])
  {
  }

  lemma {:induction false} SplitUnlines(lines: seq<string>, last: string)
    requires AllOneLine(lines) && OneLineOnly(last) && last != []
    ensures SplitLines(Unlines(lines) + last) == lines + [last]
  {
    if lines == [] {
      OnlyLine(last);
      assert Unlines(lines) + last == last;
    } else {
      Regroup(EndLine(lines[0]), Unlines(lines[1..]), last);
      FirstLine(lines[0], Unlines(lines[1..]) + last);
      SplitUnlines(lines[1..], last);
      HeadApart(lines, last);
    }
  }

  lemma {:induction false} TrimRightPrefix(s: string)
    ensures TrimRight(s) <= s
  {
    if s != [] && IsSpace(s[|s| - 1]) {
      TrimRightPrefix(s[..|s| - 1]);
    }
  }

  lemma UnlinesOne(line: string)
    ensures Unlines([line]) == EndLine(line)
  {
    assert [line][1..] == [];
  }

  lemma {:induction false} UnlinesLast(lines: seq<string>)
    requires lines != []
    ensures Unlines(lines) == Unlines(lines[..|lines| - 1]) + EndLine(lines[|lines| - 1])
  {
    var front, last := lines[..|lines| - 1], lines[|lines| - 1];
    assert lines == front + [last];
    UnlinesJoin(front, [last]);
    UnlinesOne(last);
  }

  lemma {:induction false} TrimRightLines(lines: seq<string>)
    requires AllOneLine(lines)
    ensures SplitLines(TrimRight(Unlines(lines))) == TrimLast(lines)
  {
    if lines != [] {
      var front, last := lines[..|lines| - 1], lines[|lines| - 1];
      UnlinesLast(lines);
      if AllSpace(last) {
        TrimRightBlank(Unlines(front), EndLine(last));
        TrimRightLines(front);
      } else {
        Regroup(Unlines(front), last, "\n");
        TrimRightBlank(Unlines(front) + last, "\n");
        TrimRightLine(Unlines(front), last);
        TrimRightKeeps(last);
        TrimRightPrefix(last);
        SplitUnlines(front, TrimRight(last));
      }
    }
  }

  lemma {:induction false} TrimLeftSuffix(s: string)
    requires OneLineOnly(s)
    ensures OneLineOnly(TrimLeft(s))
  {
    if s != [] && IsSpace(s[0]) {
      TrimLeftSuffix(s[1..]);
    }
  }

  lemma {:induction false} TrimFirstOneLine(lines: seq<string>)
    requires AllOneLine(lines)
    ensures AllOneLine(TrimFirst(lines))
  {
    if lines != [] {
      TrimLeftSuffix(lines[0]);
      TrimFirstOneLine(lines[1..]);
    }
  }

  lemma LinesOfStripped(lines: seq<string>)
    requires AllOneLine(lines)
    ensures SplitLines(Strip(Unlines(lines))) == TrimLast(TrimFirst(lines))
  {
    TrimLeftLines(lines);
    TrimFirstOneLine(lines);
    TrimRightLines(TrimFirst(lines));
  }

  // ---------- What strip does to the result ----------

  lemma StartsNotBlank(line: string)
    requires Starts(line)
    ensures !IsSpace(line[0]) && TrimLeft(line) == line && !AllSpace(line)
  {
    assert line[0] == 'B' && line[0] in line;
  }

  lemma StartsWithoutSpace(s: string)
    requires Starts(s) && IsSpace(s[|s| - 1])
    ensures Starts(s[..|s| - 1])
  {
    assert s[11] == BENCHMARKING[11] == 'g';
  }

  lemma {:induction false} TrimRightStarts(s: string)
    ensures Starts(TrimRight(s)) <==> Starts(s)
  {
    if s != [] && IsSpace(s[|s| - 1]) {
      TrimRightStarts(s[..|s| - 1]);
      if Starts(s) {
        StartsWithoutSpace(s);
      }
    }
  }

  /** A line that is as good as another one for the parser. */
  ghost predicate Alike(a: string, b: string) {
    (Starts(a) <==> Starts(b)) && Fields(a) == Fields(b)
  }

  lemma {:induction false} LastAlike<T>(parseFloat: string -> Option<T>, lines: seq<string>, a: string, b: string,
                                        result: map<string, T>)
    requires Alike(a, b)
    ensures Parsed(parseFloat, lines + [a], result) == Parsed(parseFloat, lines + [b], result)
    decreases |lines|
  {
    var as_, bs := lines + [a], lines + [b];
    if lines == [] {
      assert as_ == [a] && bs == [b];
    } else {
      assert as_[1..] == lines[1..] + [a] && bs[1..] == lines[1..] + [b];
      if !Starts(lines[0]) {
        LastAlike(parseFloat, lines[1..], a, b, result);
      } else if |lines| > 1 {
        assert as_[2..] == lines[2..] + [a] && bs[2..] == lines[2..] + [b];
        match (FieldAt(lines[0], 1), TimeAt(parseFloat, lines[1]))
        case (Some(name), Some(time)) => LastAlike(parseFloat, lines[2..], a, b, result[name := time]);
        case _ =>
      } else {
        assert as_[2..] == [] && bs[2..] == [];
      }
    }
  }

  lemma {:induction false} BlankFields(s: string)
    requires AllSpace(s)
    ensures Fields(s) == []
  {
    if s != [] {
      assert s == [s[0]] + s[1..];
      BlankFields(s[1..]);
    }
  }

  /** A blank line at the end changes nothing: where it could be taken for the second line
      of a block, the parser raises with and without it. */
  lemma {:induction false} BlankLast<T>(parseFloat: string -> Option<T>, lines: seq<string>, blank: string,
                                        result: map<string, T>)
    requires AllSpace(blank)
    ensures Parsed(parseFloat, lines + [blank], result) == Parsed(parseFloat, lines, result)
    decreases |lines|
  {
    var more := lines + [blank];
    BlankFields(blank);
    if lines == [] {
      assert more == [blank] && more[1..] == [];
      if Starts(blank) {
        StartsNotBlank(blank);
      }
    } else {
      assert more[1..] == lines[1..] + [blank];
      if !Starts(lines[0]) {
        BlankLast(parseFloat, lines[1..], blank, result);
      } else if |lines| > 1 {
        assert more[2..] == lines[2..] + [blank];
        match (FieldAt(lines[0], 1), TimeAt(parseFloat, lines[1]))
        case (Some(name), Some(time)) => BlankLast(parseFloat, lines[2..], blank, result[name := time]);
        case _ =>
      } else {
        assert more[1] == blank;
      }
    }
  }

  lemma {:induction false} TrimLastHarmless<T>(parseFloat: string -> Option<T>, lines: seq<string>, result: map<string, T>)
    ensures Parsed(parseFloat, TrimLast(lines), result) == Parsed(parseFloat, lines, result)
  {
    if lines != [] {
      var front, last := lines[..|lines| - 1], lines[|lines| - 1];
      assert lines == front + [last];
      if AllSpace(last) {
        TrimLastHarmless(parseFloat, front, result);
        BlankLast(parseFloat, front, last, result);
      } else {
        TrimRightFields(last);
        TrimRightStarts(last);
        LastAlike(parseFloat, front, last, TrimRight(last), result);
      }
    }
  }

  /** The first line that is not blank looks like the start of a block only because it is one. */
  ghost predicate NotIndented(lines: seq<string>) {
    forall i :: 0 <= i < |lines| && !AllSpace(lines[i]) && (forall j :: 0 <= j < i ==> AllSpace(lines[j])) ==>
      (Starts(TrimLeft(lines[i])) ==> Starts(lines[i]))
  }

  lemma NotIndentedRest(lines: seq<string>)
    requires NotIndented(lines) && lines != [] && AllSpace(lines[0])
    ensures NotIndented(lines[1..])
  {
    var rest := lines[1..];
    forall i | 0 <= i < |rest| && !AllSpace(rest[i]) && (forall j :: 0 <= j < i ==> AllSpace(rest[j]))
      ensures Starts(TrimLeft(rest[i])) ==> Starts(rest[i])
    {
      assert rest[i] == lines[i + 1];
      forall j | 0 <= j < i + 1 ensures AllSpace(lines[j]) {
        if j > 0 {
          assert lines[j] == rest[j - 1];
        }
      }
    }
  }

  lemma {:induction false} TrimFirstHarmless<T>(parseFloat: string -> Option<T>, lines: seq<string>, result: map<string, T>)
    requires NotIndented(lines)
    ensures Parsed(parseFloat, TrimFirst(lines), result) == Parsed(parseFloat, lines, result)
  {
    if lines != [] {
      if AllSpace(lines[0]) {
        if Starts(lines[0]) {
          StartsNotBlank(lines[0]);
        } else {
          NotIndentedRest(lines);
          TrimFirstHarmless(parseFloat, lines[1..], result);
        }
      } else {
        assert Starts(TrimLeft(lines[0])) ==> Starts(lines[0]);
        var trimmed := TrimFirst(lines);
        assert trimmed[1..] == lines[1..];
        if Starts(lines[0]) {
          StartsNotBlank(lines[0]);
          assert trimmed == lines;
        }
      }
    }
  }

  /** strip and splitlines are harmless: the parser works as on the printed lines, unless
      the first line that is not blank is an indented "Benchmarking". */
  lemma ParsedAsPrinted<T>(parseFloat: string -> Option<T>, lines: seq<string>)
    requires AllOneLine(lines) && NotIndented(lines)
    ensures Parsed(parseFloat, SplitLines(Strip(Unlines(lines))), map[]) == Parsed(parseFloat, lines, map[])
  {
    LinesOfStripped(lines);
    TrimLastHarmless(parseFloat, TrimFirst(lines), map[]);
    TrimFirstHarmless(parseFloat, lines, map[]);
  }

  // ---------- The round trip ----------

  /** What the victim prints: the block of one function, or any other line. */
  datatype Item<T> = Block(name: string, thread: nat, time: T, iter: nat) | Noise(line: string)

  function BlockHead(name: string, thread: nat): string {
    "Benchmarking" + " " + name + " " + ("in thread " + Decimal(thread))
  }

  function BlockTime(time: string, iter: nat): string {
    "Average" + " " + ("time" + " " + ("usage" + " " + (time + " " + ("ns, iter " + Decimal(iter) + " times"))))
  }

  function ItemLines<T>(render: T -> string, item: Item<T>): seq<string> {
    match item
    case Block(name, thread, time, iter) => [BlockHead(name, thread), BlockTime(render(time), iter), ""]
    case Noise(line) => [line]
  }

  function AllLines<T>(render: T -> string, items: seq<Item<T>>): seq<string> {
    if items == [] then [] else ItemLines(render, items[0]) + AllLines(render, items[1..])
  }

  ghost predicate Printed<T>(render: T -> string, parseFloat: string -> Option<T>, item: Item<T>) {
    match item
    case Block(name, _, time, _) =>
      && name != [] && NoSpace(name)
      && render(time) != [] && NoSpace(render(time)) && parseFloat(render(time)) == Some(time)
    case Noise(line) => OneLineOnly(line) && !Starts(line)
  }

  /** The time of each function; the last block of a name wins. */
  function Times<T>(items: seq<Item<T>>): map<string, T> {
    if items == [] then map[]
    else
      var last, front := items[|items| - 1], Times(items[..|items| - 1]);
      if last.Block? then front[last.name := last.time] else front
  }

  lemma {:induction false} LastBlockWins<T>(items: seq<Item<T>>, name: string)
    ensures name in Times(items) <==> exists i :: 0 <= i < |items| && items[i].Block? && items[i].name == name
    ensures name in Times(items) ==>
      exists i :: 0 <= i < |items| && items[i].Block? && items[i].name == name && Times(items)[name] == items[i].time &&
        forall j :: i < j < |items| && items[j].Block? ==> items[j].name != name
  {
    if items != [] {
      var front, last := items[..|items| - 1], items[|items| - 1];
      LastBlockWins(front, name);
      assert forall i :: 0 <= i < |front| ==> items[i] == front[i];
      if last.Block? && last.name == name {
        assert items[|items| - 1] == last;
      }
    }
  }

  predicate Word(s: string) { s != [] && NoSpace(s) }

  lemma FourthField(a: string, b: string, c: string, d: string, rest: string)
    requires Word(a) && Word(b) && Word(c) && Word(d)
    ensures FieldAt(a + " " + (b + " " + (c + " " + (d + " " + rest))), 3) == Some(d)
  {
    FirstField(a, b + " " + (c + " " + (d + " " + rest)));
    FirstField(b, c + " " + (d + " " + rest));
    FirstField(c, d + " " + rest);
    FirstField(d, rest);
  }

  lemma HeadParsed(name: string, thread: nat)
    requires name != [] && NoSpace(name)
    ensures Starts(BlockHead(name, thread)) && FieldAt(BlockHead(name, thread), 1) == Some(name)
  {
    var rest := "in thread " + Decimal(thread);
    var tail := name + " " + rest;
    assert BlockHead(name, thread) == BENCHMARKING + " " + tail;
    FirstField(BENCHMARKING, tail);
    FirstField(name, rest);
  }

  lemma TimeParsed(time: string, iter: nat)
    requires time != [] && NoSpace(time)
    ensures FieldAt(BlockTime(time, iter), 3) == Some(time)
  {
    FourthField("Average", "time", "usage", time, "ns, iter " + Decimal(iter) + " times");
  }

  lemma BlockParsed<T>(parseFloat: string -> Option<T>, head: string, line: string, rest: seq<string>,
                       name: string, time: T, result: map<string, T>)
    requires Starts(head) && FieldAt(head, 1) == Some(name)
    requires FieldAt(line, 3).Some? && parseFloat(FieldAt(line, 3).value) == Some(time)
    ensures Parsed(parseFloat, [head, line, ""] + rest, result) == Parsed(parseFloat, rest, result[name := time])
  {
    var lines := [head, line, ""] + rest;
    assert lines[2..] == [""] + rest;
    assert ([""] + rest)[1..] == rest;
  }

  /** The lines of one item, before any others. */
  lemma ItemParsed<T>(render: T -> string, parseFloat: string -> Option<T>, item: Item<T>, rest: seq<string>,
                      result: map<string, T>)
    requires Printed(render, parseFloat, item)
    ensures Parsed(parseFloat, ItemLines(render, item) + rest, result) == Parsed(parseFloat, rest, result + Entry(item))
  {
    match item
    case Noise(line) =>
      assert ([line] + rest)[1..] == rest && result + map[] == result;
    case Block(name, thread, time, iter) =>
      HeadParsed(name, thread);
      TimeParsed(render(time), iter);
      BlockParsed(parseFloat, BlockHead(name, thread), BlockTime(render(time), iter), rest, name, time, result);
      assert result + map[name := time] == result[name := time];
  }

  ghost predicate AllPrinted<T>(render: T -> string, parseFloat: string -> Option<T>, items: seq<Item<T>>) {
    forall i :: 0 <= i < |items| ==> Printed(render, parseFloat, items[i])
  }

  /** What one item adds to a result. */
  function Entry<T>(item: Item<T>): map<string, T> {
    if item.Block? then map[item.name := item.time] else map[]
  }

  lemma MapsJoin<K, V>(a: map<K, V>, b: map<K, V>, c: map<K, V>)
    ensures (a + b) + c == a + (b + c)
  {
  }

  lemma {:induction false} FirstItemAdds<T>(item: Item<T>, items: seq<Item<T>>)
    ensures Times([item] + items) == Entry(item) + Times(items)
  {
    var all := [item] + items;
    if items == [] {
      assert all[..0] == [] && all[0] == item;
    } else {
      var front, last := items[..|items| - 1], items[|items| - 1];
      assert all[..|all| - 1] == [item] + front && all[|all| - 1] == last;
      FirstItemAdds(item, front);
    }
  }

  /** What printed items add to a result. */
  lemma {:induction false} AllItemsParsed<T>(render: T -> string, parseFloat: string -> Option<T>, items: seq<Item<T>>,
                                             result: map<string, T>)
    requires AllPrinted(render, parseFloat, items)
    ensures Parsed(parseFloat, AllLines(render, items), result) == Some(result + Times(items))
    decreases |items|
  {
    if items == [] {
      assert result + map[] == result;
    } else {
      var item, rest := items[0], items[1..];
      ItemParsed(render, parseFloat, item, AllLines(render, rest), result);
      AllItemsParsed(render, parseFloat, rest, result + Entry(item));
      assert items == [item] + rest;
      FirstItemAdds(item, rest);
      MapsJoin(result, Entry(item), Times(rest));
    }
  }

  lemma {:induction false} LinesAreLines<T>(render: T -> string, parseFloat: string -> Option<T>, items: seq<Item<T>>)
    requires AllPrinted(render, parseFloat, items)
    ensures AllOneLine(AllLines(render, items))
  {
    if items != [] {
      LinesAreLines(render, parseFloat, items[1..]);
      if items[0].Block? {
        BlockIsLines(items[0].name, items[0].thread, render(items[0].time), items[0].iter);
      }
    }
  }

  lemma NoSpaceNoBreak(s: string)
    requires NoSpace(s)
    ensures OneLineOnly(s)
  {
    forall i | 0 <= i < |s| ensures !IsBreak(s[i]) {
      assert s[i] in s;
    }
  }

  lemma BlockIsLines(name: string, thread: nat, time: string, iter: nat)
    requires NoSpace(name) && NoSpace(time)
    ensures OneLineOnly(BlockHead(name, thread)) && OneLineOnly(BlockTime(time, iter))
  {
    NoSpaceNoBreak(name);
    NoSpaceNoBreak(time);
    DecimalIsOneLine(thread);
    DecimalIsOneLine(iter);
  }

  lemma DecimalIsOneLine(n: nat)
    ensures OneLineOnly(Decimal(n))
  {
    var s := Decimal(n);
    forall i | 0 <= i < |s| ensures !IsBreak(s[i]) {
      assert s[i] in s;
    }
  }

  lemma NoiseAddsNothing<T>(line: string, items: seq<Item<T>>)
    ensures Times([Noise(line)] + items) == Times(items)
  {
    FirstItemAdds(Noise(line), items);
    assert map[] + Times(items) == Times(items);
  }

  ghost predicate HasBlock<T>(items: seq<Item<T>>, name: string) {
    exists i :: 0 <= i < |items| && items[i].Block? && items[i].name == name
  }

  /** `head` is taken for the start of a block, and the line after it for its time.  That does
      no harm if the next line is not a block's, has a time in its fourth field, and the name
      in `head` is that of a later block. */
  ghost predicate Harmless<T>(parseFloat: string -> Option<T>, head: string, items: seq<Item<T>>) {
    && items != [] && items[0].Noise?
    && FieldAt(head, 1).Some? && TimeAt(parseFloat, items[0].line).Some?
    && HasBlock(items[1..], FieldAt(head, 1).value)
  }

  /** The condition for the round trip: the first line that is not blank is not an indented
      "Benchmarking", or it does no harm. */
  ghost predicate ReadsBack<T>(parseFloat: string -> Option<T>, items: seq<Item<T>>)
    decreases |items|
  {
    items != [] && items[0].Noise? ==>
      if AllSpace(items[0].line) then ReadsBack(parseFloat, items[1..])
      else Starts(TrimLeft(items[0].line)) ==> Harmless(parseFloat, TrimLeft(items[0].line), items[1..])
  }

  function IndentedResult<T>(parseFloat: string -> Option<T>, head: string, items: seq<Item<T>>): Option<map<string, T>> {
    if items == [] || items[0].Block? then None
    else match (FieldAt(head, 1), TimeAt(parseFloat, items[0].line))
         case (Some(name), Some(time)) => Some(map[name := time] + Times(items[1..]))
         case _ => None
  }

  /** An indented "Benchmarking" in the first line, whatever follows: the parser raises unless
      there is a name in it and a time in the line after it, and otherwise adds the two to what
      the remaining lines give. */
  lemma IndentedFirstLine<T>(render: T -> string, parseFloat: string -> Option<T>, head: string, items: seq<Item<T>>)
    requires AllPrinted(render, parseFloat, items) && Starts(head) && parseFloat("thread").None?
    ensures Parsed(parseFloat, [head] + AllLines(render, items), map[]) == IndentedResult(parseFloat, head, items)
  {
    var lines := [head] + AllLines(render, items);
    if items != [] {
      var rest := AllLines(render, items[1..]);
      assert AllLines(render, items) == ItemLines(render, items[0]) + rest;
      assert lines[1] == ItemLines(render, items[0])[0];
      if items[0].Block? {
        HeadHasNoTime(parseFloat, items[0].name, items[0].thread);
      } else {
        assert lines[2..] == rest;
        if FieldAt(head, 1).Some? && TimeAt(parseFloat, items[0].line).Some? {
          var result: map<string, T> := map[FieldAt(head, 1).value := TimeAt(parseFloat, items[0].line).value];
          assert map[][FieldAt(head, 1).value := TimeAt(parseFloat, items[0].line).value] == result;
          AllItemsParsed(render, parseFloat, items[1..], result);
        }
      }
    }
  }

  /** The fourth field of a block's first line is the word "thread". */
  lemma HeadHasNoTime<T>(parseFloat: string -> Option<T>, name: string, thread: nat)
    requires name != [] && NoSpace(name)
    ensures TimeAt(parseFloat, BlockHead(name, thread)) == parseFloat("thread")
  {
    var number := Decimal(thread);
    assert BlockHead(name, thread) == BENCHMARKING + " " + (name + " " + ("in" + " " + ("thread" + " " + number)));
    FourthField(BENCHMARKING, name, "in", "thread", number);
  }

  /** With one more entry the map is the right one exactly if a later block has the name. */
  lemma ExtraEntry<T>(name: string, time: T, items: seq<Item<T>>)
    ensures map[name := time] + Times(items) == Times(items) <==> HasBlock(items, name)
  {
    LastBlockWins(items, name);
    if HasBlock(items, name) {
      assert map[name := time] + Times(items) == Times(items);
    } else {
      assert name in map[name := time] + Times(items);
    }
  }

  lemma IndentedHarmlessIff<T>(parseFloat: string -> Option<T>, head: string, items: seq<Item<T>>)
    ensures IndentedResult(parseFloat, head, items) == Some(Times(items)) <==> Harmless(parseFloat, head, items)
  {
    if items != [] && items[0].Noise? && FieldAt(head, 1).Some? && TimeAt(parseFloat, items[0].line).Some? {
      assert items == [items[0]] + items[1..];
      NoiseAddsNothing(items[0].line, items[1..]);
      ExtraEntry(FieldAt(head, 1).value, TimeAt(parseFloat, items[0].line).value, items[1..]);
    }
  }

  lemma {:induction false} TrimmedReadBackIff<T>(render: T -> string, parseFloat: string -> Option<T>, items: seq<Item<T>>)
    requires AllPrinted(render, parseFloat, items) && parseFloat("thread").None?
    ensures Parsed(parseFloat, TrimFirst(AllLines(render, items)), map[]) == Some(Times(items)) <==>
      ReadsBack(parseFloat, items)
    decreases |items|
  {
    var lines := AllLines(render, items);
    if items == [] {
      assert TrimFirst(lines) == [];
    } else if items[0].Block? {
      FirstLineKept(render, items);
      AllItemsParsed(render, parseFloat, items, map[]);
      assert map[] + Times(items) == Times(items);
    } else {
      var line, rest := items[0].line, items[1..];
      assert items == [Noise(line)] + rest && lines == [line] + AllLines(render, rest);
      assert lines[1..] == AllLines(render, rest);
      NoiseAddsNothing(line, rest);
      if AllSpace(line) {
        TrimmedReadBackIff(render, parseFloat, rest);
      } else if Starts(TrimLeft(line)) {
        IndentedFirstLine(render, parseFloat, TrimLeft(line), rest);
        IndentedHarmlessIff(parseFloat, TrimLeft(line), rest);
      } else {
        AllItemsParsed(render, parseFloat, rest, map[]);
        assert map[] + Times(rest) == Times(rest);
        var trimmed := TrimFirst(lines);
        assert trimmed == [TrimLeft(line)] + AllLines(render, rest);
        assert trimmed[1..] == AllLines(render, rest);
      }
    }
  }

  lemma FirstLineKept<T>(render: T -> string, items: seq<Item<T>>)
    requires items != [] && items[0].Block?
    ensures TrimFirst(AllLines(render, items)) == AllLines(render, items)
  {
    var lines := AllLines(render, items);
    var head := BlockHead(items[0].name, items[0].thread);
    assert lines[0] == head;
    assert head == BENCHMARKING + (" " + items[0].name + " " + ("in thread " + Decimal(items[0].thread)));
    StartsNotBlank(head);
    assert lines == [lines[0]] + lines[1..];
  }

  /** The round trip, for any blocks between any other lines: the output is read back as the
      map from names to times exactly if the first line that is not blank is not an indented
      "Benchmarking", or that line does no harm.  `parseFloat` is Python's float, which
      rejects the word that stands in the fourth place of a block's first line. */
  lemma {:induction false} VictimRoundTrip<T>(render: T -> string, parseFloat: string -> Option<T>, items: seq<Item<T>>)
    requires AllPrinted(render, parseFloat, items) && parseFloat("thread").None?
    ensures Parsed(parseFloat, SplitLines(Strip(Unlines(AllLines(render, items)))), map[]) == Some(Times(items)) <==>
      ReadsBack(parseFloat, items)
  {
    var lines := AllLines(render, items);
    LinesAreLines(render, parseFloat, items);
    LinesOfStripped(lines);
    TrimLastHarmless(parseFloat, TrimFirst(lines), map[]);
    TrimmedReadBackIff(render, parseFloat, items);
  }

  /** Without an indented "Benchmarking" first, nothing is asked of float's other answers. */
  lemma {:induction false} PlainRoundTrip<T>(render: T -> string, parseFloat: string -> Option<T>, items: seq<Item<T>>)
    requires AllPrinted(render, parseFloat, items) && NotIndented(AllLines(render, items))
    ensures Parsed(parseFloat, SplitLines(Strip(Unlines(AllLines(render, items)))), map[]) == Some(Times(items))
  {
    LinesAreLines(render, parseFloat, items);
    ParsedAsPrinted(parseFloat, AllLines(render, items));
    AllItemsParsed(render, parseFloat, items, map[]);
    assert map[] + Times(items) == Times(items);
  }

  /** The exact outcome when the first line is an indented "Benchmarking". */
  lemma FirstLineIff<T>(render: T -> string, parseFloat: string -> Option<T>, first: string, items: seq<Item<T>>)
    requires AllPrinted(render, parseFloat, [Noise(first)] + items) && parseFloat("thread").None?
    requires Starts(TrimLeft(first))
    ensures var all := [Noise(first)] + items;
      var result := Parsed(parseFloat, SplitLines(Strip(Unlines(AllLines(render, all)))), map[]);
      && (result == Some(Times(all)) <==> Harmless(parseFloat, TrimLeft(first), items))
      && (result.None? <==>
            || items == [] || items[0].Block?
            || FieldAt(TrimLeft(first), 1).None? || TimeAt(parseFloat, items[0].line).None?)
  {
    var all := [Noise(first)] + items;
    var lines, head := AllLines(render, all), TrimLeft(first);
    assert all[1..] == items;
    assert lines == [first] + AllLines(render, items) && lines[1..] == AllLines(render, items);
    assert forall i :: 0 <= i < |items| ==> items[i] == all[i + 1];
    StartsNotBlank(head);
    TrimLeftKeeps(first);
    LinesAreLines(render, parseFloat, all);
    LinesOfStripped(lines);
    TrimLastHarmless(parseFloat, TrimFirst(lines), map[]);
    IndentedFirstLine(render, parseFloat, head, items);
    IndentedHarmlessIff(parseFloat, head, items);
    NoiseAddsNothing(first, items);
  }
}
