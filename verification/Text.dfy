/**
 The string operations of Python that the parsers use, with what the round trips
 need to know about them.
 */
module Text {

  import opened Options

  predicate IsSpace(c: char) {
    c in {' ', '\t', '\n', '\r', '\U{0b}', '\U{0c}', '\U{1c}', '\U{1d}', '\U{1e}', '\U{1f}'}
  }

  /** The codes of the white space: 9 to 13, 28 to 32. */
  lemma SpaceCodes(c: char)
    ensures IsSpace(c) <==> 9 <= c as int <= 13 || 28 <= c as int <= 32
  {
  }

  predicate AllSpace(s: string) { forall c :: c in s ==> IsSpace(c) }

  predicate NoSpace(s: string) { forall c :: c in s ==> !IsSpace(c) }

  /** `part in text` on strings. */
  predicate Contains(text: string, part: string) {
    part <= text || (text != [] && Contains(text[1..], part))
  }

  lemma {:induction false} PartOf(before: string, part: string, after: string)
    ensures Contains(before + part + after, part)
  {
    if before == [] {
      assert before + part + after == part + after;
    } else {
      assert (before + part + after)[1..] == before[1..] + part + after;
      PartOf(before[1..], part, after);
    }
  }

  lemma {:induction false} SplitAround(text: string, part: string) returns (before: string, after: string)
    requires Contains(text, part)
    ensures text == before + part + after
  {
    if part <= text {
      before, after := [], text[|part|..];
    } else {
      before, after := SplitAround(text[1..], part);
      before := [text[0]] + before;
    }
  }

  lemma ContainsIff(text: string, part: string)
    ensures Contains(text, part) <==> exists before: string, after: string :: text == before + part + after
  {
    if Contains(text, part) {
      var before, after := SplitAround(text, part);
    }
    forall before: string, after: string | text == before + part + after ensures Contains(text, part) {
      PartOf(before, part, after);
    }
  }

  // ---------- strip ----------

  function TrimLeft(s: string): string {
    if s != [] && IsSpace(s[0]) then TrimLeft(s[1..]) else s
  }

  function TrimRight(s: string): string {
    if s != [] && IsSpace(s[|s| - 1]) then TrimRight(s[..|s| - 1]) else s
  }

  function Strip(s: string): string { TrimRight(TrimLeft(s)) }

  lemma {:induction false} TrimRightOf(s: string, spaces: string)
    requires AllSpace(spaces) && (s == [] || !IsSpace(s[|s| - 1]))
    ensures TrimRight(s + spaces) == s
  {
    if spaces == [] {
      assert s + spaces == s;
    } else {
      var front := spaces[..|spaces| - 1];
      assert spaces == front + [spaces[|spaces| - 1]];
      assert (s + spaces)[..|s + spaces| - 1] == s + front;
      assert (s + spaces)[|s + spaces| - 1] == spaces[|spaces| - 1];
      TrimRightOf(s, front);
    }
  }

  lemma {:induction false} TrimLeftBlank(blank: string, rest: string)
    requires AllSpace(blank)
    ensures TrimLeft(blank + rest) == TrimLeft(rest)
  {
    if blank == [] {
      assert blank + rest == rest;
    } else {
      assert blank == [blank[0]] + blank[1..];
      assert (blank + rest)[1..] == blank[1..] + rest;
      TrimLeftBlank(blank[1..], rest);
    }
  }

  /** strip removes the padding and nothing else. */
  lemma StripPadded(before: string, s: string, after: string)
    requires AllSpace(before) && AllSpace(after)
    requires s != [] && !IsSpace(s[0]) && !IsSpace(s[|s| - 1])
    ensures Strip(before + (s + after)) == s
  {
    TrimLeftBlank(before, s + after);
    assert TrimLeft(s + after) == s + after;
    TrimRightOf(s, after);
  }

  lemma {:induction false} StripEmptyIffBlank(s: string)
    ensures Strip(s) == [] <==> AllSpace(s)
  {
    TrimLeftKeeps(s);
    TrimRightKeeps(TrimLeft(s));
  }

  lemma {:induction false} TrimLeftKeeps(s: string)
    ensures AllSpace(TrimLeft(s)) <==> AllSpace(s)
  {
    if s != [] && IsSpace(s[0]) {
      TrimLeftKeeps(s[1..]);
      assert s == [s[0]] + s[1..];
    }
  }

  lemma {:induction false} TrimRightKeeps(s: string)
    ensures TrimRight(s) == [] <==> AllSpace(s)
  {
    if s != [] {
      assert s == s[..|s| - 1] + [s[|s| - 1]];
      TrimRightKeeps(s[..|s| - 1]);
    }
  }

  // ---------- readlines ----------

  /** Whether a line has been ended. */
  predicate Ended(line: string) { line != [] && line[|line| - 1] == '\n' }

  /** The next character goes to the last line, or starts a new one. */
  function AddChar(lines: seq<string>, c: char): seq<string> {
    if lines == [] || Ended(lines[|lines| - 1]) then lines + [[c]]
    else lines[..|lines| - 1] + [lines[|lines| - 1] + [c]]
  }

  /** The lines of a text, each with its newline. */
  function Lines(s: string): seq<string> {
    if s == [] then [] else AddChar(Lines(s[..|s| - 1]), s[|s| - 1])
  }

  lemma LastLine(s: string)
    requires s != []
    ensures Lines(s) != []
    ensures Ended(Lines(s)[|Lines(s)| - 1]) <==> s[|s| - 1] == '\n'
  {
  }

  lemma AddCharJoin(a: seq<string>, b: seq<string>, c: char)
    requires b != [] || a == [] || Ended(a[|a| - 1])
    ensures AddChar(a + b, c) == a + AddChar(b, c)
  {
    if b == [] {
      assert a + b == a;
    } else {
      assert (a + b)[..|a + b| - 1] == a + b[..|b| - 1];
    }
  }

  /** Reading on after a newline starts a new line. */
  lemma {:induction false} LinesJoin(s: string, t: string)
    requires s == [] || s[|s| - 1] == '\n'
    ensures Lines(s + t) == Lines(s) + Lines(t)
  {
    if t == [] {
      assert s + t == s;
    } else {
      var front, c := t[..|t| - 1], t[|t| - 1];
      assert (s + t)[..|s + t| - 1] == s + front;
      LinesJoin(s, front);
      if s != [] {
        LastLine(s);
      }
      if front != [] {
        LastLine(front);
      }
      AddCharJoin(Lines(s), Lines(front), c);
    }
  }

  lemma {:induction false} OneLine(line: string)
    requires line != [] && '\n' !in line[..|line| - 1]
    ensures Lines(line) == [line]
  {
    var front := line[..|line| - 1];
    if front == [] {
      assert line == [line[0]];
    } else {
      assert '\n' !in front[..|front| - 1];
      OneLine(front);
      assert front[|front| - 1] in front;
      assert line == front + [line[|line| - 1]];
    }
  }

  function JoinedLines(lines: seq<string>): string {
    if lines == [] then "" else JoinedLines(lines[..|lines| - 1]) + lines[|lines| - 1]
  }

  /** No newline before the end of the line. */
  predicate IsLine(line: string) { line != [] && '\n' !in line[..|line| - 1] }

  /** Lines, all ended but perhaps the last. */
  predicate AreLines(lines: seq<string>) {
    && (forall i :: 0 <= i < |lines| ==> IsLine(lines[i]))
    && (forall i :: 0 <= i < |lines| - 1 ==> Ended(lines[i]))
  }

  lemma LongerLine(line: string, c: char)
    requires IsLine(line) && !Ended(line)
    ensures IsLine(line + [c])
  {
    assert (line + [c])[..|line|] == line;
    assert line == line[..|line| - 1] + [line[|line| - 1]];
  }

  lemma {:induction false} AddCharMakesLines(lines: seq<string>, c: char)
    requires AreLines(lines)
    ensures AreLines(AddChar(lines, c)) && JoinedLines(AddChar(lines, c)) == JoinedLines(lines) + [c]
  {
    var more := AddChar(lines, c);
    if lines == [] || Ended(lines[|lines| - 1]) {
      assert more[..|lines|] == lines;
    } else {
      LongerLine(lines[|lines| - 1], c);
      assert more[..|more| - 1] == lines[..|lines| - 1];
    }
  }

  lemma {:induction false} AddCharMakesText(lines: seq<string>, front: string, c: char)
    requires AreLines(lines) && JoinedLines(lines) == front
    ensures AreLines(AddChar(lines, c)) && JoinedLines(AddChar(lines, c)) == front + [c]
  {
    AddCharMakesLines(lines, c);
  }

  lemma {:induction false} LastCharApart(s: string)
    requires s != []
    ensures Lines(s) == AddChar(Lines(s[..|s| - 1]), s[|s| - 1]) && s == s[..|s| - 1] + [s[|s| - 1]]
  {
  }

  /** The lines of a text make it up again; every one but perhaps the last has a newline at its
      end, and none has one before its end. */
  lemma {:induction false} LinesMakeText(s: string)
    ensures AreLines(Lines(s)) && JoinedLines(Lines(s)) == s
  {
    if s != [] {
      var front, c := s[..|s| - 1], s[|s| - 1];
      LinesMakeText(front);
      LastCharApart(s);
      AddCharMakesText(Lines(front), front, c);
    }
  }

  lemma {:induction false} BlankLines(s: string)
    requires AllSpace(s)
    ensures forall i :: 0 <= i < |Lines(s)| ==> AllSpace(Lines(s)[i])
  {
    if s != [] {
      var front, c := s[..|s| - 1], s[|s| - 1];
      assert s == front + [c];
      BlankLines(front);
    }
  }

  // ---------- split ----------

  /** s.split(sep) for a single character. */
  function Split(s: string, sep: char): (parts: seq<string>)
    ensures parts != []
  {
    if s == [] then [[]]
    else
      var front, c := Split(s[..|s| - 1], sep), s[|s| - 1];
      if c == sep then front + [[]]
      else front[..|front| - 1] + [front[|front| - 1] + [c]]
  }

  lemma {:induction false} SplitJoin(s: string, sep: char, t: string)
    requires sep !in t
    ensures Split(s + [sep] + t, sep) == Split(s, sep) + [t]
  {
    var whole := s + [sep] + t;
    if t == [] {
      assert whole[..|whole| - 1] == s;
    } else {
      var front := t[..|t| - 1];
      assert whole[..|whole| - 1] == s + [sep] + front;
      assert t == front + [t[|t| - 1]];
      SplitJoin(s, sep, front);
    }
  }

  lemma {:induction false} SplitNothing(s: string, sep: char)
    requires sep !in s
    ensures Split(s, sep) == [s]
  {
    if s != [] {
      assert s == s[..|s| - 1] + [s[|s| - 1]];
      SplitNothing(s[..|s| - 1], sep);
    }
  }

  function JoinedBy(parts: seq<string>, sep: char): string
    requires parts != []
  {
    if |parts| == 1 then parts[0] else JoinedBy(parts[..|parts| - 1], sep) + [sep] + parts[|parts| - 1]
  }

  /** The parts, joined by the separator, make up the text again, and it is in none of them. */
  lemma {:induction false} PartsMakeText(s: string, sep: char)
    ensures JoinedBy(Split(s, sep), sep) == s
    ensures forall i :: 0 <= i < |Split(s, sep)| ==> sep !in Split(s, sep)[i]
  {
    if s != [] {
      var front, c := s[..|s| - 1], s[|s| - 1];
      var parts := Split(front, sep);
      PartsMakeText(front, sep);
      assert s == front + [c];
      if c == sep {
        assert (parts + [[]])[..|parts|] == parts;
      } else {
        LongerLastPart(parts, sep, c);
      }
    }
  }

  lemma LongerLastPart(parts: seq<string>, sep: char, c: char)
    requires parts != []
    ensures JoinedBy(parts[..|parts| - 1] + [parts[|parts| - 1] + [c]], sep) == JoinedBy(parts, sep) + [c]
  {
    var more := parts[..|parts| - 1] + [parts[|parts| - 1] + [c]];
    assert more[..|more| - 1] == parts[..|parts| - 1];
  }

  // ---------- int and str ----------

  predicate IsDigit(c: char) { '0' <= c <= '9' }

  function Digit(d: nat): char
    requires d < 10
  {
    ('0' as int + d) as char
  }

  /** str(n) */
  function Decimal(n: nat): (s: string)
    ensures s != [] && forall c :: c in s ==> IsDigit(c)
  {
    if n < 10 then [Digit(n)] else Decimal(n / 10) + [Digit(n % 10)]
  }

  /** The usual notation: a digit stands for itself, and one more digit to the right makes ten
      times the number and that digit. */
  lemma DecimalNotation(n: nat, d: nat)
    requires d < 10
    ensures Decimal(d) == [('0' as int + d) as char]
    ensures n > 0 ==> Decimal(10 * n + d) == Decimal(n) + [('0' as int + d) as char]
  {
  }

  function DigitValue(c: char): Option<int> {
    if IsDigit(c) then Some((c - '0') as int) else None
  }

  function DigitsValue(s: string): Option<int> {
    if s == [] then Some(0)
    else match (DigitsValue(s[..|s| - 1]), DigitValue(s[|s| - 1]))
      case (Some(high), Some(low)) => Some(10 * high + low)
      case _ => None
  }

  /** int(s): surrounding space and a sign are allowed. */
  function ParseInt(s: string): Option<int> {
    var t := Strip(s);
    if t == [] then None
    else if t[0] == '-' && |t| > 1 then
      (match DigitsValue(t[1..]) case Some(n) => Some(-n) case None => None)
    else
      var digits := if t[0] == '+' then t[1..] else t;
      if digits == [] then None
      else (match DigitsValue(digits) case Some(n) => Some(n) case None => None)
  }

  lemma {:induction false} DigitsRoundTrip(n: nat)
    ensures DigitsValue(Decimal(n)) == Some(n)
  {
    if n < 10 {
      assert DigitValue(Digit(n)) == Some(n);
      assert Decimal(n)[..0] == [];
    } else {
      DigitsRoundTrip(n / 10);
      assert DigitValue(Digit(n % 10)) == Some(n % 10);
      assert Decimal(n)[..|Decimal(n)| - 1] == Decimal(n / 10);
    }
  }

  /** int(str(n)) == n, with any space around the digits. */
  lemma IntRoundTrip(before: string, n: nat, after: string)
    requires AllSpace(before) && AllSpace(after)
    ensures ParseInt(before + (Decimal(n) + after)) == Some(n)
  {
    var s := Decimal(n);
    assert s[0] in s && s[|s| - 1] in s;
    StripPadded(before, s, after);
    DigitsRoundTrip(n);
  }

  /** int accepts one sign before the digits. */
  lemma SignedInt(n: nat)
    ensures ParseInt("-" + Decimal(n)).Some? && ParseInt("-" + Decimal(n)).value + n == 0
    ensures ParseInt("+" + Decimal(n)) == Some(n)
  {
    var digits := Decimal(n);
    assert digits[|digits| - 1] in digits;
    DigitsRoundTrip(n);
    forall sign | sign in "+-" ensures Strip([sign] + digits) == [sign] + digits && ([sign] + digits)[1..] == digits {
      StripPadded([], [sign] + digits, []);
      assert [] + (([sign] + digits) + []) == [sign] + digits;
    }
    assert "-" + digits == ['-'] + digits && "+" + digits == ['+'] + digits;
  }

  predicate AllDigits(s: string) { forall i :: 0 <= i < |s| ==> '0' <= s[i] <= '9' }

  /** Nothing but digits is a number. */
  lemma {:induction false} OnlyDigits(s: string)
    ensures DigitsValue(s).Some? <==> AllDigits(s)
  {
    if s != [] {
      var front, last := s[..|s| - 1], s[|s| - 1];
      OnlyDigits(front);
      assert AllDigits(s) <==> AllDigits(front) && '0' <= last <= '9' by {
        assert s == front + [last];
      }
    }
  }
}
