/** What a modem response means, told from its text alone: which lines are result codes, which line of a response decides,
    and what is reported for it. */
module AtMeaning {
  import opened Options
  import opened AtText
  import opened AtResponse

  // ----- Splitting and joining

  ghost predicate Clean(text: string) {
    forall p :: 0 <= p < |text| ==> !DelimiterAt(text, p)
  }

  ghost predicate AllClean(parts: seq<string>) {
    forall i :: 0 <= i < |parts| ==> Clean(parts[i])
  }

  // Texts with a delimiter between each two.
  function Join(parts: seq<string>): string {
    if parts == [] then "" else if |parts| == 1 then parts[0] else parts[0] + "\r\n" + Join(parts[1..])
  }

  function NonEmpty(parts: seq<string>): seq<string> {
    if parts == [] then [] else (if parts[0] != "" then [parts[0]] else []) + NonEmpty(parts[1..])
  }

  lemma CleanIsUndelimited(text: string)
    ensures Clean(text) <==> Find(text, 0).None?
  {
  }

  lemma FindIn(s: string, from: nat, p: nat)
    requires from <= p && DelimiterAt(s, p) && forall q :: from <= q < p ==> !DelimiterAt(s, q)
    ensures Find(s, from) == Some(p)
  {
    var r := Find(s, from);
    assert r.Some? && DelimiterAt(s, r.value);
  }

  lemma FindInRest(s: string, from: nat)
    requires from <= |s|
    ensures Find(s[from..], 0) == if Find(s, from).Some? then Some(Find(s, from).value - from) else None
  {
    hide Find;
    var t := s[from..];
    forall q | 0 <= q
      ensures DelimiterAt(t, q) <==> DelimiterAt(s, from + q)
    {
    }
    var r := Find(s, from);
    if r.Some? {
      FindIn(t, 0, r.value - from);
    }
  }

  // Splitting the rest of a text is splitting from a position in it.
  lemma {:induction false} SplitRest(s: string, from: nat)
    requires from <= |s|
    ensures SplitFrom(s, from) == Split(s[from..])
    decreases |s| - from
  {
    hide Find;
    var t := s[from..];
    FindInRest(s, from);
    var r := Find(s, from);
    if r.Some? {
      var p := r.value - from;
      SplitRest(s, r.value + 2);
      SplitRest(t, p + 2);
      assert t[p + 2..] == s[r.value + 2..] && t[0..p] == s[from..r.value];
    } else {
      assert t[0..] == t;
    }
  }

  lemma FirstDelimiter(part: string, rest: string)
    requires Clean(part)
    ensures Find(part + "\r\n" + rest, 0) == Some(|part|)
  {
    var s := part + "\r\n" + rest;
    assert forall q :: 0 <= q < |part| ==> s[q] == part[q];
    forall q | 0 <= q < |part|
      ensures !DelimiterAt(s, q)
    {
      assert !DelimiterAt(part, q);
    }
    FindIn(s, 0, |part|);
  }

  // The lines of a text are its parts between delimiters, without the empty ones.
  lemma {:induction false} SplitOfJoin(parts: seq<string>)
    requires AllClean(parts)
    ensures Split(Join(parts)) == NonEmpty(parts)
    decreases |parts|
  {
    if |parts| == 1 {
      CleanIsUndelimited(parts[0]);
      assert parts[0][0..] == parts[0] && NonEmpty(parts[1..]) == [];
    } else if parts != [] {
      var s := Join(parts);
      FirstDelimiter(parts[0], Join(parts[1..]));
      SplitRest(s, |parts[0]| + 2);
      assert s[|parts[0]| + 2..] == Join(parts[1..]) && s[0..|parts[0]|] == parts[0];
      SplitOfJoin(parts[1..]);
    }
  }

  // And every text has such parts.
  lemma {:induction false} EveryTextIsJoined(s: string) returns (parts: seq<string>)
    ensures parts != [] && AllClean(parts) && Join(parts) == s
    decreases |s|
  {
    var r := Find(s, 0);
    if r.None? {
      CleanIsUndelimited(s);
      parts := [s];
    } else {
      var rest := EveryTextIsJoined(s[r.value + 2..]);
      parts := [s[..r.value]] + rest;
      assert parts[1..] == rest;
      forall q | 0 <= q < r.value
        ensures !DelimiterAt(s[..r.value], q)
      {
        assert !DelimiterAt(s, q);
      }
      assert s == s[..r.value] + "\r\n" + s[r.value + 2..];
    }
  }

  // ----- Result codes

  // OK, ERROR, and whatever starts like a numbered error.
  predicate ResultLine(line: string) {
    line == "OK" || line == "ERROR" || CME <= line || CMS <= line
  }

  predicate HasResult(line: Option<string>) {
    line.Some? && ResultLine(line.value)
  }

  lemma PrefixIffStarts(line: string, prefix: string)
    ensures prefix <= line <==> |prefix| <= |line| && line[..|prefix|] == prefix
  {
  }

  lemma ResultLineIff(line: string)
    ensures ResultLine(line) <==> ParseState(line).code != NONE
  {
    hide Trim;
    hide ToNumeric;
    assert |CME| == 11 && |CMS| == 11;
    PrefixIffStarts(line, CME);
    PrefixIffStarts(line, CMS);
  }

  // ----- The line that decides

  // The first line counts if it is a result code; otherwise the one the end check looks at.
  function Decider(b: string): Option<string> {
    if HasResult(BeginLine(b)) then BeginLine(b) else EndLine(b)
  }

  // Whatever follows, the first line is the one between a delimiter that opens the text and the next.
  lemma FirstLineIs(line: string, tail: string)
    requires Clean(line) && 2 <= |line| + |tail|
    ensures BeginLine("\r\n" + line + "\r\n" + tail) == Some(line)
  {
    var b := "\r\n" + line + "\r\n" + tail;
    assert forall q :: 0 <= q < |line| ==> b[2 + q] == line[q];
    forall q | 2 <= q < 2 + |line|
      ensures !DelimiterAt(b, q)
    {
      assert !DelimiterAt(line, q - 2);
    }
    FindIn(b, 2, 2 + |line|);
    assert b[2..2 + |line|] == line;
  }

  // There is no other first line.
  lemma FirstLineOnlyThere(b: string)
    ensures BeginLine(b).Some? ==>
              && Clean(BeginLine(b).value) && 5 < |b|
              && "\r\n" + BeginLine(b).value + "\r\n" <= b
  {
    if BeginLine(b).Some? {
      var p := Find(b, 2).value;
      var line := BeginLine(b).value;
      forall q | 0 <= q < |line|
        ensures !DelimiterAt(line, q)
      {
        assert !DelimiterAt(b, q + 2);
      }
      assert b[..p + 2] == "\r\n" + line + "\r\n";
    }
  }

  // Lines that a delimiter ends.
  function TerminatedLines(b: string): int {
    |Split(b)| - (if b == "" || (2 <= |b| && DelimiterAt(b, |b| - 2)) then 0 else 1)
  }

  lemma {:induction false} CountingEnds(b: string, from: nat, n: nat)
    requires from <= |b|
    ensures var p := CountLines(b, from, n).0;
            && from <= p <= |b| && (p == from || (from + 2 <= p && DelimiterAt(b, p - 2)))
            && forall q :: p <= q < |b| ==> !DelimiterAt(b, q)
    decreases |b| - from
  {
    if Find(b, from).Some? {
      var pos := Find(b, from).value;
      CountingEnds(b, pos + 2, if from != pos then n + 1 else n);
    }
  }

  lemma CountedAreTerminated(b: string)
    ensures CountLines(b, 0, 0).1 == TerminatedLines(b)
  {
    hide CountLines;
    hide SplitFrom;
    CountedLinesAreSplitLines(b, 0, 0);
    CountingEnds(b, 0, 0);
    var p := CountLines(b, 0, 0).0;
    if p < |b| && 2 <= |b| && DelimiterAt(b, |b| - 2) {
      assert false;
    }
  }

  // ----- When a response is complete

  // Exactly then: with a result code first, once the lines asked for are there; otherwise, with a result code in the
  // text the end check looks at. Any other line completes nothing.
  lemma CompleteIff(rxCount: nat, code: Code, b: string)
    ensures Of(rxCount, code, b).ready
            <==> HasResult(Decider(b)) && (HasResult(BeginLine(b)) ==> rxCount <= TerminatedLines(b))
  {
    CountedAreTerminated(b);
    assert 0 <= TerminatedLines(b);
    if BeginLine(b).Some? { ResultLineIff(BeginLine(b).value); }
    if EndLine(b).Some? { ResultLineIff(EndLine(b).value); }
    hide ParseState;
    hide BeginLine;
    hide EndLine;
    hide CountLines;
    hide TerminatedLines;
    hide ResultLine;
  }

  // What a complete response reports: all its lines, the error, and the code unless there are too many lines.
  ghost predicate Reports(s: State, b: string, code: Code, error: ErrorCode) {
    s.result == Result(if s.rxCount != 0 && |Split(b)| > s.rxCount then TOKENS else code, error, Split(b))
  }

  lemma DeciderReported(rxCount: nat, code: Code, b: string)
    requires Of(rxCount, code, b).ready
    ensures Decider(b).Some?
    ensures var p := ParseState(Decider(b).value);
            Reports(Of(rxCount, code, b), b, ReportedCode(p), ReportedError(p))
  {
    CompleteIff(rxCount, code, b);
    ResultLineIff(Decider(b).value);
    ParseStateErrcode(Decider(b).value);
    if BeginLine(b).Some? {
      ResultLineIff(BeginLine(b).value);
      ParseStateErrcode(BeginLine(b).value);
    }
    hide ParseState;
    hide BeginLine;
    hide EndLine;
    hide CountLines;
    hide ResultLine;
    hide Split;
    hide Finish;
    var p := ParseState(Decider(b).value);
    FinishReports(p, if p.errcode.Some? then p.errcode.value else 0, Split(b), rxCount);
  }

  // ----- What each result code is reported as

  const NO_ERROR := Equipment(NO_INFORMATION)

  lemma PlainReported(rxCount: nat, code: Code, b: string)
    requires Of(rxCount, code, b).ready
    ensures Decider(b) == Some("OK") ==> Reports(Of(rxCount, code, b), b, OK, NO_ERROR)
    ensures Decider(b) == Some("ERROR") ==> Reports(Of(rxCount, code, b), b, ERROR, NO_ERROR)
  {
    hide Of;
    hide Decider;
    DeciderReported(rxCount, code, b);
  }

  // Blank, tab, line feed, vertical tab, form feed and carriage return.
  predicate IsBlank(c: char) {
    c == ' ' || 9 <= c as int <= 13
  }

  ghost predicate Blank(s: string) { forall i :: 0 <= i < |s| ==> IsBlank(s[i]) }

  lemma {:induction false} TrimLeftBlanks(blanks: string, s: string)
    requires Blank(blanks) && (s == "" || !IsSpace(s[0]))
    ensures TrimLeft(blanks + s) == s
    decreases |blanks|
  {
    if blanks == "" {
      assert blanks + s == s;
    } else {
      assert (blanks + s)[1..] == blanks[1..] + s;
      TrimLeftBlanks(blanks[1..], s);
    }
  }

  lemma {:induction false} TrimRightKeeps(s: string, tail: string)
    requires s != "" && !IsSpace(s[|s| - 1])
    ensures TrimRight(tail) <= tail && TrimRight(s + tail) == s + TrimRight(tail)
    decreases |tail|
  {
    if tail != "" {
      var front := tail[..|tail| - 1];
      TrimRightKeeps(s, front);
      assert (s + tail)[..|s + tail| - 1] == s + front;
    } else {
      assert s + tail == s;
    }
  }

  ghost predicate Sign(s: string) { s == "" || s == "-" || s == "+" }

  // A number is the whole line after the prefix, blanks and a sign; what follows its digits is ignored.
  lemma NumberedParses(prefix: string, blanks: string, sign: string, n: nat, tail: string)
    requires (prefix == CME || prefix == CMS) && Blank(blanks) && Sign(sign) && (tail == "" || !IsDigit(tail[0]))
    ensures var v: int := if sign == "-" then 0 - n else n;
            ParseState(prefix + blanks + sign + Decimal(n) + tail)
            == if -0x8000_0000 <= v < 0x8000_0000
               then Parsed(if prefix == CME then CME_ERROR else CMS_ERROR, Some(v % 0x1_0000_0000))
               else Parsed(PARSING_ERROR, None)
  {
    hide ToNumeric;
    hide Decimal;
    hide Trim;
    hide TrimRight;
    hide IsSpace;
    hide ParseState;
    var line := prefix + blanks + sign + Decimal(n) + tail;
    assert line == prefix + (blanks + (sign + Decimal(n) + tail));
    ErrorTextParses(prefix, blanks + (sign + Decimal(n) + tail));
    TrimmedNumber(blanks, sign, n, tail);
    NumberIsRead(sign, n, TrimRight(tail));
  }

  lemma ErrorTextParses(prefix: string, text: string)
    requires prefix == CME || prefix == CMS
    ensures ParseState(prefix + text)
         == if Trim(text) == "" || ToNumeric(Trim(text)).None? then Parsed(PARSING_ERROR, None)
            else Parsed(if prefix == CME then CME_ERROR else CMS_ERROR, Some(ToNumeric(Trim(text)).value % 0x1_0000_0000))
  {
    hide ToNumeric;
    var line := prefix + text;
    assert |prefix| == 11 && CME[3] != CMS[3];
    assert line[11..] == text && line[..11] == prefix;
    assert text == "" ==> line == prefix;
  }

  lemma TrimmedNumber(blanks: string, sign: string, n: nat, tail: string)
    requires Blank(blanks) && Sign(sign)
    ensures Trim(blanks + (sign + Decimal(n) + tail)) == sign + Decimal(n) + TrimRight(tail)
    ensures TrimRight(tail) <= tail
  {
    hide Decimal;
    hide TrimRight;
    hide TrimLeft;
    var number := sign + Decimal(n);
    assert IsDigit(Decimal(n)[0]) && IsDigit(number[|number| - 1]);
    TrimLeftBlanks(blanks, number + tail);
    TrimRightKeeps(number, tail);
  }

  lemma NumberReported(rxCount: nat, code: Code, b: string,
                       prefix: string, blanks: string, sign: string, n: nat, tail: string)
    requires (prefix == CME || prefix == CMS) && Blank(blanks) && Sign(sign) && (tail == "" || !IsDigit(tail[0]))
    requires Of(rxCount, code, b).ready && Decider(b) == Some(prefix + blanks + sign + Decimal(n) + tail)
    ensures var v: int := if sign == "-" then 0 - n else n;
            var m := v % 0x1_0000_0000;
            if v < -0x8000_0000 || 0x8000_0000 <= v then Reports(Of(rxCount, code, b), b, PARSING_ERROR, NO_ERROR)
            else Reports(Of(rxCount, code, b), b, ERROR,
                         if prefix == CME then Equipment(if IsEquipmentError(m) then m else UNKNOWN)
                         else Network(if IsNetworkError(m) then m else UNKNOWN))
  {
    DeciderReported(rxCount, code, b);
    NumberedParses(prefix, blanks, sign, n, tail);
    hide Of;
    hide ParseState;
    hide Decimal;
    hide Decider;
  }

  // Without a digit after the blanks and the sign there is no number.
  lemma UnnumberedParses(prefix: string, blanks: string, sign: string, rest: string)
    requires (prefix == CME || prefix == CMS) && Blank(blanks) && Sign(sign)
    requires rest != "" ==> !IsDigit(rest[0]) && (sign == "" ==> !IsBlank(rest[0]) && rest[0] != '-' && rest[0] != '+')
    ensures ParseState(prefix + blanks + sign + rest) == Parsed(PARSING_ERROR, None)
  {
    hide ParseState;
    assert prefix + blanks + sign + rest == prefix + (blanks + (sign + rest));
    ErrorTextParses(prefix, blanks + (sign + rest));
    TrimLeftBlanks(blanks, sign + rest);
    var text := Trim(blanks + (sign + rest));
    if sign + rest == "" {
      assert text == "";
    } else {
      var first, more := (sign + rest)[..1], (sign + rest)[1..];
      assert sign + rest == first + more;
      TrimRightKeeps(first, more);
      assert text == first + TrimRight(more);
      assert TrimLeft(text) == text;
      if sign != "" {
        assert more == rest;
      }
      NoDigitIsRefused(text);
    }
  }

  lemma NoNumberReported(rxCount: nat, code: Code, b: string, prefix: string, blanks: string, sign: string, rest: string)
    requires (prefix == CME || prefix == CMS) && Blank(blanks) && Sign(sign)
    requires rest != "" ==> !IsDigit(rest[0]) && (sign == "" ==> !IsBlank(rest[0]) && rest[0] != '-' && rest[0] != '+')
    requires Of(rxCount, code, b).ready && Decider(b) == Some(prefix + blanks + sign + rest)
    ensures Reports(Of(rxCount, code, b), b, PARSING_ERROR, NO_ERROR)
  {
    DeciderReported(rxCount, code, b);
    UnnumberedParses(prefix, blanks, sign, rest);
    hide Of;
    hide ParseState;
    hide Decider;
  }

  // The numbers that have a name of their own; all others are reported as unknown.
  lemma NamedErrors(n: nat)
    ensures IsEquipmentError(n) <==>
            n in {0, 1, 2, 3, 4, 5, 6, 7, 10, 11, 12, 13, 14, 15, 16, 17, 18, 20, 21, 22, 23, 24, 25, 26, 27, 30, 31, 32,
                  40, 41, 42, 43, 44, 45, 46, 47, 258, 901, 902, 903, 904, 1001, 1002}
    ensures IsNetworkError(n) <==>
            n in {300, 301, 302, 303, 304, 305, 310, 311, 312, 313, 314, 315, 316, 317, 318, 320, 321, 322, 330, 331, 332,
                  500, 512, 513, 514, 515, 517, 528, 529, 530, 531, 1001, 1002}
  {
  }

  // ----- Whole responses

  // A response that ends with OK or ERROR after lines that open with no result code.
  lemma FinalLineReported(rxCount: nat, code: Code, head: string, line: string)
    requires line == "OK" || line == "ERROR"
    requires !HasResult(BeginLine(head + "\r\n" + line + "\r\n"))
    ensures var b := head + "\r\n" + line + "\r\n";
            Of(rxCount, code, b).ready && Reports(Of(rxCount, code, b), b, if line == "OK" then OK else ERROR, NO_ERROR)
  {
    var b := head + "\r\n" + line + "\r\n";
    CleanIsUndelimited(line);
    EmptyHasNoDelimiter();
    LastTerminatedLineDecides(head, line, []);
    assert b + [] == b;
    hide Of;
    hide EndLine;
    hide BeginLine;
    hide TerminatedLines;
    CompleteIff(rxCount, code, b);
    PlainReported(rxCount, code, b);
  }

  // One that starts with OK or ERROR waits for the lines asked for.
  lemma FirstLineReported(rxCount: nat, code: Code, line: string, tail: string)
    requires line == "OK" || line == "ERROR"
    ensures var b := "\r\n" + line + "\r\n" + tail;
            var s := Of(rxCount, code, b);
            && (s.ready <==> rxCount <= TerminatedLines(b))
            && (s.ready ==> Reports(s, b, if line == "OK" then OK else ERROR, NO_ERROR))
  {
    var b := "\r\n" + line + "\r\n" + tail;
    FirstLineIs(line, tail);
    hide Of;
    hide EndLine;
    hide BeginLine;
    hide TerminatedLines;
    CompleteIff(rxCount, code, b);
    if Of(rxCount, code, b).ready {
      PlainReported(rxCount, code, b);
    }
  }

  // So the response that is just OK, or just ERROR, is complete for at most one line asked for.
  lemma BareResponse(rxCount: nat, code: Code, line: string)
    requires line == "OK" || line == "ERROR"
    ensures var s := Of(rxCount, code, "\r\n" + line + "\r\n");
            && (s.ready <==> rxCount <= 1)
            && (s.ready ==> s.result == Result(if line == "OK" then OK else ERROR, NO_ERROR, [line]))
  {
    hide Of;
    hide Split;
    var b := "\r\n" + line + "\r\n";
    assert b + "" == b;
    LinesOfBare(line);
    FirstLineReported(rxCount, code, line, "");
  }

  lemma LinesOfBare(line: string)
    requires Clean(line) && line != ""
    ensures Split("\r\n" + line + "\r\n") == [line]
  {
    hide Split;
    var parts := ["", line, ""];
    assert parts[1..] == [line, ""] && parts[1..][1..] == [""];
    assert Join([line, ""]) == line + "\r\n" + "";
    assert Join(parts) == "" + "\r\n" + (line + "\r\n" + "");
    assert "" + "\r\n" + (line + "\r\n" + "") == "\r\n" + line + "\r\n";
    SplitOfJoin(parts);
    assert NonEmpty([""]) == [] && NonEmpty([line, ""]) == [line];
  }
}
