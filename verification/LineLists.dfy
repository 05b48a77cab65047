/**
 The newline-separated lists that a diff file carries (src/zimdiff.cpp, src/zimpatch.cpp): how they are written, and how
 they are read back character by character.
 */
module LineLists {

  // ---------- Writing and reading lines ----------

  /** Each line with a newline after it. */
  function Lines(lines: seq<string>): string {
    if lines == [] then "" else Lines(lines[..|lines| - 1]) + lines[|lines| - 1] + "\n"
  }

  lemma LinesAppend(lines: seq<string>, line: string)
    ensures Lines(lines + [line]) == Lines(lines) + line + "\n"
  {
    assert (lines + [line])[..|lines|] == lines;
  }

  /** The lines ended in `text`, `tmp` being the start of the first one. What follows the last newline is dropped. */
  function ReadLines(tmp: string, text: string): seq<string>
    decreases |text|
  {
    if text == "" then []
    else if text[0] != '\n' then ReadLines(tmp + [text[0]], text[1..])
    else [tmp] + ReadLines("", text[1..])
  }

  lemma {:induction false} ReadLine(tmp: string, line: string, text: string)
    requires '\n' !in line
    ensures ReadLines(tmp, line + "\n" + text) == [tmp + line] + ReadLines("", text)
    decreases |line|
  {
    var all := line + "\n" + text;
    if line == "" {
      assert all[1..] == text && tmp + line == tmp;
    } else {
      assert all[1..] == line[1..] + "\n" + text;
      ReadLine(tmp + [line[0]], line[1..], text);
      assert tmp + [line[0]] + line[1..] == tmp + line;
    }
  }

  ghost predicate NewlineFree(lines: seq<string>) {
    forall k :: 0 <= k < |lines| ==> '\n' !in lines[k]
  }

  /** Reading a written list gives its lines and then what the text after it gives. */
  lemma {:induction false} ReadsWritten(lines: seq<string>, text: string)
    requires NewlineFree(lines)
    ensures ReadLines("", Lines(lines) + text) == lines + ReadLines("", text)
  {
    if lines == [] {
      assert Lines(lines) + text == text;
    } else {
      var init, last := lines[..|lines| - 1], lines[|lines| - 1];
      ReadsWritten(init, last + "\n" + text);
      ReadLine("", last, text);
      hide ReadLines;
      assert "" + last == last;
      assert Lines(init) + (last + "\n" + text) == Lines(lines) + text;
      assert init + ([last] + ReadLines("", text)) == lines + ReadLines("", text) by {
        assert lines == init + [last];
      }
    }
  }

  lemma LinesRoundTrip(lines: seq<string>)
    requires NewlineFree(lines)
    ensures ReadLines("", Lines(lines)) == lines
  {
    ReadsWritten(lines, "");
    assert Lines(lines) + "" == Lines(lines);
    assert lines + [] == lines;
  }

  lemma {:induction false} LinesFirst(line: string, lines: seq<string>)
    ensures Lines([line] + lines) == line + "\n" + Lines(lines)
  {
    hide Lines;
    NoLines();
    if lines == [] {
      LinesAppend([], line);
      assert [] + [line] == [line] + lines;
      assert "" + line + "\n" == line + "\n" + "";
    } else {
      var init, last := lines[..|lines| - 1], lines[|lines| - 1];
      LinesFirst(line, init);
      LinesAppend([line] + init, last);
      LinesAppend(init, last);
      assert [line] + init + [last] == [line] + lines && init + [last] == lines;
      RegroupLines(line, Lines(init), last);
    }
  }

  lemma RegroupLines(line: string, more: string, last: string)
    ensures line + "\n" + more + last + "\n" == line + "\n" + (more + last + "\n")
  {
  }

  /** Of any text every ended line is read, and only what follows the last newline is not. */
  lemma {:induction false} EveryLineIsRead(tmp: string, text: string) returns (tail: string)
    requires '\n' !in tmp
    ensures NewlineFree(ReadLines(tmp, text)) && '\n' !in tail
    ensures Lines(ReadLines(tmp, text)) + tail == tmp + text
    decreases |text|
  {
    hide Lines;
    if text == "" {
      tail := tmp;
      NoLines();
      assert "" + tail == tmp + text;
    } else if text[0] != '\n' {
      tail := EveryLineIsRead(tmp + [text[0]], text[1..]);
      assert tmp + [text[0]] + text[1..] == tmp + text;
    } else {
      tail := EveryLineIsRead("", text[1..]);
      LinesFirst(tmp, ReadLines("", text[1..]));
      assert "" + text[1..] == text[1..];
      assert tmp + "\n" + text[1..] == tmp + text;
      var lines := Lines(ReadLines("", text[1..]));
      assert tmp + "\n" + lines + tail == tmp + "\n" + (lines + tail);
    }
  }

  lemma NoLines()
    ensures Lines([]) == ""
  {
  }

  lemma ReadLinesStep(tmp: string, text: string, i: nat)
    requires i < |text|
    ensures ReadLines(tmp, text[i..])
         == if text[i] != '\n' then ReadLines(tmp + [text[i]], text[i + 1..]) else [tmp] + ReadLines("", text[i + 1..])
  {
    assert text[i..][1..] == text[i + 1..];
  }

  /** The loop with which every list is read. */
  method SplitLines(text: string) returns (lines: seq<string>)
    ensures lines == ReadLines("", text)
  {
    hide ReadLines;
    lines := [];
    var tmp := "";
    assert text[0..] == text;
    for i := 0 to |text|
      invariant lines + ReadLines(tmp, text[i..]) == ReadLines("", text)
    {
      ReadLinesStep(tmp, text, i);
      if text[i] != '\n' {
        tmp := tmp + [text[i]];
      } else {
        assert lines + ([tmp] + ReadLines("", text[i + 1..])) == lines + [tmp] + ReadLines("", text[i + 1..]);
        lines := lines + [tmp];
        tmp := "";
      }
    }
    assert text[|text|..] == "";
    assert ReadLines(tmp, "") == [] by {
      NothingRead(tmp);
    }
  }

  lemma NothingRead(tmp: string)
    ensures ReadLines(tmp, "") == []
  {
  }

  // ---------- Numbers ----------

  predicate IsDigit(c: char) {
    '0' as int <= c as int <= '9' as int
  }

  function DigitValue(c: char): nat
    requires IsDigit(c)
  {
    c as int - '0' as int
  }

  function Digits(n: nat): (s: string)
    ensures s != "" && forall i :: 0 <= i < |s| ==> IsDigit(s[i])
  {
    if n < 10 then [('0' as int + n) as char] else Digits(n / 10) + [('0' as int + n % 10) as char]
  }

  /** `NumberToString`. */
  function NumberToString(n: int): string {
    if n < 0 then "-" + Digits(-n) else Digits(n)
  }

  /** The value of the leading digits, `sofar` being that of the digits before. */
  function LeadingDigits(sofar: nat, s: string): nat
    decreases |s|
  {
    if s == "" || !IsDigit(s[0]) then sofar else LeadingDigits(10 * sofar + DigitValue(s[0]), s[1..])
  }

  predicate IsSpace(c: char) {
    c == ' ' || '\t' <= c <= '\r'
  }

  /** The C function `atoi`: white space, a sign, digits. */
  function Atoi(s: string): int {
    if s == "" then 0
    else if IsSpace(s[0]) then Atoi(s[1..])
    else if s[0] == '-' then -(LeadingDigits(0, s[1..]) as int)
    else if s[0] == '+' then LeadingDigits(0, s[1..])
    else LeadingDigits(0, s)
  }

  lemma {:induction false} LeadingDigitsAppend(sofar: nat, s: string, c: char)
    requires (forall i :: 0 <= i < |s| ==> IsDigit(s[i])) && IsDigit(c)
    ensures LeadingDigits(sofar, s + [c]) == 10 * LeadingDigits(sofar, s) + DigitValue(c)
    decreases |s|
  {
    if s == "" {
      assert s + [c] == [c];
      assert [c][1..] == "";
    } else {
      assert (s + [c])[1..] == s[1..] + [c];
      LeadingDigitsAppend(10 * sofar + DigitValue(s[0]), s[1..], c);
    }
  }

  lemma {:induction false} DigitsRoundTrip(n: nat)
    ensures LeadingDigits(0, Digits(n)) == n
  {
    if n < 10 {
      assert Digits(n)[1..] == "";
      assert LeadingDigits(n, "") == n;
    } else {
      DigitsRoundTrip(n / 10);
      LeadingDigitsAppend(0, Digits(n / 10), ('0' as int + n % 10) as char);
    }
  }

  /** `atoi` undoes `NumberToString`, for negative numbers too. */
  lemma NumberRoundTrip(n: int)
    ensures Atoi(NumberToString(n)) == n
  {
    if n < 0 {
      DigitsRoundTrip(-n);
      assert ("-" + Digits(-n))[1..] == Digits(-n);
    } else {
      DigitsRoundTrip(n);
      assert IsDigit(Digits(n)[0]);
    }
  }

  /** A number has no leading zeros, so its text is the only one of digits alone with that value. */
  lemma {:induction false} NoLeadingZero(n: nat)
    ensures Digits(n)[0] == '0' ==> Digits(n) == "0"
    ensures n > 0 ==> Digits(n)[0] != '0'
  {
    if n >= 10 {
      NoLeadingZero(n / 10);
    }
  }

  /** A minus sign for negative numbers only, and then digits without leading zeros. */
  lemma NumberIsCanonical(n: int)
    ensures var s := NumberToString(n);
            var digits := if n < 0 then s[1..] else s;
            && s != "" && (n < 0 <==> s[0] == '-') && digits != ""
            && (forall i :: 0 <= i < |digits| ==> '0' <= digits[i] <= '9') && (digits[0] == '0' ==> digits == "0")
  {
    var m := if n < 0 then -n else n;
    NoLeadingZero(m);
    assert forall i :: 0 <= i < |Digits(m)| ==> IsDigit(Digits(m)[i]);
    hide Digits;
    assert ("-" + Digits(m))[1..] == Digits(m);
  }

  lemma {:induction false} LeadingDigitsStop(sofar: nat, s: string, rest: string)
    requires rest == "" || !IsDigit(rest[0])
    requires forall i :: 0 <= i < |s| ==> IsDigit(s[i])
    ensures LeadingDigits(sofar, s + rest) == LeadingDigits(sofar, s)
    decreases |s|
  {
    if s == "" {
      assert s + rest == rest;
    } else {
      assert (s + rest)[1..] == s[1..] + rest;
      LeadingDigitsStop(10 * sofar + DigitValue(s[0]), s[1..], rest);
    }
  }

  lemma AtoiOfNumber(sign: string, n: nat, rest: string)
    requires sign in {"", "+", "-"} && (rest == "" || !('0' <= rest[0] <= '9'))
    ensures Atoi(sign + (Digits(n) + rest)) == if sign == "-" then -(n as int) else n
  {
    var number := Digits(n) + rest;
    LeadingDigitsStop(0, Digits(n), rest);
    DigitsRoundTrip(n);
    assert number[0] == Digits(n)[0] && IsDigit(number[0]);
    hide Digits, LeadingDigits;
    assert sign == "" ==> sign + number == number;
    assert sign != "" ==> (sign + number)[1..] == number;
  }

  lemma AtoiSkips(c: char, s: string)
    requires c in [' ', '\t', '\n', 11 as char, 12 as char, '\r']
    ensures Atoi([c] + s) == Atoi(s)
  {
    assert ([c] + s)[1..] == s;
  }

  /** `atoi` on any text: white space before the number is skipped, one sign is taken, and what follows the digits is
      ignored. */
  lemma {:induction false} AtoiMeans(space: string, sign: string, n: nat, rest: string)
    requires forall i :: 0 <= i < |space| ==> space[i] in [' ', '\t', '\n', 11 as char, 12 as char, '\r']
    requires sign in {"", "+", "-"} && (rest == "" || !('0' <= rest[0] <= '9'))
    ensures Atoi(space + (sign + (Digits(n) + rest))) == if sign == "-" then -(n as int) else n
    decreases |space|
  {
    hide Atoi, Digits;
    var number := sign + (Digits(n) + rest);
    if space == "" {
      AtoiOfNumber(sign, n, rest);
      assert space + number == number;
    } else {
      AtoiMeans(space[1..], sign, n, rest);
      AtoiSkips(space[0], space[1..] + number);
      assert [space[0]] + (space[1..] + number) == space + number;
    }
  }

  /** Without a number it is 0. */
  lemma AtoiOfNothing(rest: string)
    requires rest == "" || !('0' <= rest[0] <= '9')
    requires rest == "" || rest[0] !in [' ', '\t', '\n', 11 as char, 12 as char, '\r', '+', '-']
    ensures Atoi(rest) == 0
  {
  }

  lemma NumberIsALine(n: int)
    ensures '\n' !in NumberToString(n)
  {
    var digits := Digits(if n < 0 then -n else n);
    hide Digits;
    assert '\n' !in digits by {
      assert forall i :: 0 <= i < |digits| ==> IsDigit(digits[i]);
    }
  }

  /** A conversion to a signed 8-bit `char`. */
  function ToChar(n: int): (c: int)
    ensures -128 <= c < 128 && (-128 <= n < 128 ==> c == n) && (n - c) % 256 == 0
  {
    (n + 128) % 256 - 128
  }
}
