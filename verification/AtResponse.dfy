/** at::ATStream (module-cellular/modem/ATStream.cpp): assembling a modem response from whatever pieces the
    serial line delivers, and deciding when it is complete.

    `WriteStep` follows the code. `Of` says what the stream should look like as a function of the bytes
    received so far, with no history. The main result is that the two agree on every run. */
module AtResponse {
  import opened Options
  import opened AtText

  // Final result codes OK and ERROR: section 5.7.1 of ITU-T V.250. +CME ERROR: section 9.2 of 3GPP TS 27.007.
  // +CMS ERROR: section 3.2.5 of 3GPP TS 27.005.
  datatype Code = OK | ERROR | CME_ERROR | CMS_ERROR | TOKENS | NONE | UNDEFINED | PARSING_ERROR

  datatype ErrorCode = Equipment(number: nat) | Network(number: nat)

  const CME := "+CME ERROR:"
  const CMS := "+CMS ERROR:"
  const UNKNOWN := 1001
  const NO_INFORMATION := 1002
  const MIN_AT_CMD_RET := 5

  predicate IsEquipmentError(n: nat) {
    || n <= 7 || 10 <= n <= 18 || 20 <= n <= 27 || 30 <= n <= 32 || 40 <= n <= 47 || n == 258
    || 901 <= n <= 904 || n == UNKNOWN || n == NO_INFORMATION
  }

  predicate IsNetworkError(n: nat) {
    || 300 <= n <= 305 || 310 <= n <= 318 || 320 <= n <= 322 || 330 <= n <= 332 || n == 500
    || 512 <= n <= 515 || n == 517 || 528 <= n <= 531 || n == UNKNOWN || n == NO_INFORMATION
  }

  datatype Parsed = Parsed(code: Code, errcode: Option<nat>)

  function ParseState(state: string): Parsed {
    if state == "OK" then Parsed(OK, None)
    else if state == "ERROR" then Parsed(ERROR, None)
    else if state == CME || state == CMS then Parsed(PARSING_ERROR, None)
    else if |state| < 11 || (state[..11] != CME && state[..11] != CMS) then Parsed(NONE, None)
    else
      var serr := Trim(state[11..]);
      if serr == [] then Parsed(PARSING_ERROR, None)
      else
        match ToNumeric(serr)
        case None => Parsed(PARSING_ERROR, None)
        case Some(v) => Parsed(if state[..11] == CME then CME_ERROR else CMS_ERROR, Some(v % 0x1_0000_0000))
  }

  datatype Result = Result(code: Code, errorCode: ErrorCode, response: seq<string>)

  datatype State = State(
    rxCount: nat,
    buffer: string,
    beginChecked: bool,
    atAtTheBegin: bool,
    lastPos: nat,
    lineCounter: nat,
    errcode: nat,
    ready: bool,
    result: Result)

  // ----- As written

  function WithCode(s: State, p: Parsed): State {
    s.(result := s.result.(code := p.code), errcode := if p.errcode.Some? then p.errcode.value else s.errcode)
  }

  function CheckATBegin(s: State): (State, bool) {
    match Find(s.buffer, 2)
    case None => (s, false)
    case Some(pos) =>
      var p := ParseState(s.buffer[2..pos]);
      if p.code != NONE then (WithCode(s.(beginChecked := true), p), true)
      else (s.(beginChecked := true), false)
  }

  // The text checkATEnd looks at. Below position 2 the unsigned subtraction wraps round, the second search
  // finds the same delimiter again, and the text after it is taken.
  function EndLine(b: string): Option<string> {
    match RFind(b, |b|)
    case None => None
    case Some(pos) =>
      match RFind(b, if pos < 2 then |b| else pos - 2)
      case None => None
      case Some(pos2) => if pos2 + 2 <= pos then Some(b[pos2 + 2..pos]) else Some(b[pos2 + 2..])
  }

  function CheckATEnd(s: State): (State, bool) {
    match EndLine(s.buffer)
    case None => (s, false)
    case Some(line) =>
      var p := ParseState(line);
      if p.code != NONE then (WithCode(s, p), true) else (s, false)
  }

  function CountLines(b: string, lastPos: nat, lineCounter: nat): (nat, nat)
    decreases |b| - lastPos
  {
    match Find(b, lastPos)
    case None => (lastPos, lineCounter)
    case Some(pos) => CountLines(b, pos + 2, if lastPos != pos then lineCounter + 1 else lineCounter)
  }

  // The first part of parse: is there a result code at the beginning?
  function BeginPhase(s: State): (State, bool) {
    if !s.beginChecked && |s.buffer| > MIN_AT_CMD_RET && DelimiterAt(s.buffer, 0) then
      var (s1, found) := CheckATBegin(s);
      (if found then s1.(atAtTheBegin := true) else s1, found)
    else (s, false)
  }

  // The rest of it: count lines, then check what is at the end or how many lines there are.
  function EndPhase(s: State): (State, bool) {
    var (lastPos, lineCounter) :=
      if s.rxCount != 0 then CountLines(s.buffer, s.lastPos, s.lineCounter) else (s.lastPos, s.lineCounter);
    var s1 := s.(lastPos := lastPos, lineCounter := lineCounter);
    if s1.atAtTheBegin then (s1, s1.rxCount <= lineCounter) else CheckATEnd(s1)
  }

  function Parse(s: State): (State, bool) {
    var (s1, found) := BeginPhase(s);
    if found && s.rxCount == 0 then (s1, true) else EndPhase(s1)
  }

  function CheckError(r: Result, errcode: nat): Result {
    if r.code == CME_ERROR then
      r.(code := ERROR, errorCode := Equipment(if IsEquipmentError(errcode) then errcode else UNKNOWN))
    else if r.code == CMS_ERROR then
      r.(code := ERROR, errorCode := Network(if IsNetworkError(errcode) then errcode else UNKNOWN))
    else r
  }

  function Finish(r: Result, errcode: nat, lines: seq<string>, rxCount: nat): Result {
    var r1 := CheckError(r.(response := r.response + lines), errcode);
    if rxCount != 0 && |r1.response| > rxCount then r1.(code := TOKENS) else r1
  }

  // What write does with the outcome of parse.
  function Conclude(s: State, done: bool): State {
    if done then s.(ready := true, result := Finish(s.result, s.errcode, Split(s.buffer), s.rxCount)) else s
  }

  // ATStream::write; the caller is told to send more exactly when the result is not ready.
  function WriteStep(s: State, chunk: string): (State, bool) {
    if s.ready then (s, false)
    else
      var (s1, done) := Parse(s.(buffer := s.buffer + chunk));
      (Conclude(s1, done), !done)
  }

  function WriteAll(s: State, chunks: seq<string>): State
    decreases |chunks|
  {
    if chunks == [] then s else WriteAll(WriteStep(s, chunks[0]).0, chunks[1..])
  }

  function Concat(chunks: seq<string>): string {
    if chunks == [] then [] else chunks[0] + Concat(chunks[1..])
  }

  // A stream just built (code UNDEFINED) or reset (code NONE).
  function Empty(rxCount: nat, code: Code): State {
    State(rxCount, [], false, false, 0, 0, 0, false, Result(code, Equipment(NO_INFORMATION), []))
  }

  // ----- As a function of the bytes

  // The first line, if the text is long enough and opens with a delimiter: CR LF line CR LF ...
  function BeginLine(b: string): Option<string> {
    if |b| > MIN_AT_CMD_RET && DelimiterAt(b, 0) && Find(b, 2).Some? then Some(b[2..Find(b, 2).value]) else None
  }

  function CodeOf(line: Option<string>): Parsed {
    if line.Some? then ParseState(line.value) else Parsed(NONE, None)
  }

  // A state whose only verdict so far is the one at the beginning of b.
  function Begun(rxCount: nat, code: Code, b: string, lastPos: nat, lines: nat): State {
    var begin := CodeOf(BeginLine(b));
    State(rxCount, b, BeginLine(b).Some?, begin.code != NONE, lastPos, lines,
          if begin.errcode.Some? then begin.errcode.value else 0, false,
          Result(if begin.code != NONE then begin.code else code, Equipment(NO_INFORMATION), []))
  }

  function Of(rxCount: nat, code: Code, b: string): State {
    var (lastPos, lines) := if rxCount == 0 then (0, 0) else CountLines(b, 0, 0);
    var begun := Begun(rxCount, code, b, lastPos, lines);
    var end := CodeOf(EndLine(b));
    if begun.atAtTheBegin then Conclude(begun, rxCount <= lines)
    else if end.code != NONE then Conclude(WithCode(begun, end), true)
    else begun
  }

  // ----- The two agree

  lemma ParseStateErrcode(line: string)
    ensures ParseState(line).code == NONE ==> ParseState(line).errcode.None?
    ensures ParseState(line).code == CME_ERROR || ParseState(line).code == CMS_ERROR <==> ParseState(line).errcode.Some?
  {
  }

  // Once the first line is there, more bytes do not change it.
  lemma BeginLineStable(b: string, c: string)
    requires BeginLine(b).Some?
    ensures BeginLine(b + c) == BeginLine(b)
  {
    FindInLonger(b, c, 2);
    var p := Find(b, 2).value;
    assert (b + c)[2..p] == b[2..p];
    assert DelimiterAt(b + c, 0);
  }

  // Counting can stop at the end of a text and go on later, in the longer text, from where it stopped.
  lemma {:induction false} CountLinesResumes(b: string, c: string, lastPos: nat, n: nat)
    ensures var (p, m) := CountLines(b, lastPos, n); CountLines(b + c, p, m) == CountLines(b + c, lastPos, n)
    decreases |b| - lastPos
  {
    if Find(b, lastPos).Some? {
      FindInLonger(b, c, lastPos);
      var pos := Find(b, lastPos).value;
      CountLinesResumes(b, c, pos + 2, if lastPos != pos then n + 1 else n);
    }
  }

  lemma EmptyIsOf(rxCount: nat, code: Code)
    ensures Of(rxCount, code, []) == Empty(rxCount, code)
  {
  }

  lemma UnreadyIsBegun(rxCount: nat, code: Code, b: string)
    requires !Of(rxCount, code, b).ready
    ensures var (p, n) := if rxCount == 0 then (0, 0) else CountLines(b, 0, 0);
            && Of(rxCount, code, b) == Begun(rxCount, code, b, p, n)
            && (Of(rxCount, code, b).atAtTheBegin ==> 0 < rxCount)
  {
  }

  // Looking for a code at the beginning brings the flags to what the longer text says.
  lemma BeginPhaseCatchesUp(rxCount: nat, code: Code, b: string, c: string, p: nat, n: nat)
    ensures var s := Begun(rxCount, code, b, p, n);
            var (s1, found) := BeginPhase(s.(buffer := b + c));
            && s1 == Begun(rxCount, code, b + c, p, n)
            && (s1.atAtTheBegin <==> found || s.atAtTheBegin)
  {
    if BeginLine(b).Some? {
      BeginLineStable(b, c);
      ParseStateErrcode(BeginLine(b).value);
    } else if BeginLine(b + c).Some? {
      ParseStateErrcode(BeginLine(b + c).value);
    }
  }

  // The rest of parse, from those flags and from counters that stopped anywhere on the way.
  lemma EndPhaseDecides(rxCount: nat, code: Code, b: string, p: nat, n: nat)
    requires if rxCount == 0 then p == n == 0 else CountLines(b, p, n) == CountLines(b, 0, 0)
    ensures var (s, done) := EndPhase(Begun(rxCount, code, b, p, n));
            Of(rxCount, code, b) == Conclude(s, done) && Of(rxCount, code, b).ready == done
  {
  }

  // One write: from the state that belongs to b to the state that belongs to b + c.
  lemma WriteIsFunctionOfBytes(rxCount: nat, code: Code, b: string, c: string)
    requires !Of(rxCount, code, b).ready
    ensures WriteStep(Of(rxCount, code, b), c) == (Of(rxCount, code, b + c), !Of(rxCount, code, b + c).ready)
  {
    UnreadyIsBegun(rxCount, code, b);
    var (p, n) := if rxCount == 0 then (0, 0) else CountLines(b, 0, 0);
    BeginPhaseCatchesUp(rxCount, code, b, c, p, n);
    CountLinesResumes(b, c, 0, 0);
    EndPhaseDecides(rxCount, code, b + c, p, n);
  }

  // ----- Whole runs

  // How many of the chunks are taken in: all those up to and including the one that completes the response.
  function Taken(s: State, chunks: seq<string>): (k: nat)
    ensures k <= |chunks|
    decreases |chunks|
  {
    if chunks == [] || s.ready then 0 else 1 + Taken(WriteStep(s, chunks[0]).0, chunks[1..])
  }

  lemma {:induction false} ReadyStays(s: State, chunks: seq<string>)
    requires s.ready
    ensures WriteAll(s, chunks) == s
    decreases |chunks|
  {
    if chunks != [] {
      ReadyStays(s, chunks[1..]);
    }
  }

  // After any run the stream is the one that belongs to the bytes it took in.
  lemma {:induction false} RunIsFunctionOfBytes(rxCount: nat, code: Code, b: string, chunks: seq<string>)
    ensures var s := Of(rxCount, code, b);
            WriteAll(s, chunks) == Of(rxCount, code, b + Concat(chunks[..Taken(s, chunks)]))
    decreases |chunks|
  {
    hide Of;
    hide WriteStep;
    var s := Of(rxCount, code, b);
    if chunks == [] || s.ready {
      assert b + Concat(chunks[..0]) == b;
      if chunks != [] { ReadyStays(s, chunks); }
    } else {
      WriteIsFunctionOfBytes(rxCount, code, b, chunks[0]);
      var rest, b' := chunks[1..], b + chunks[0];
      var k := Taken(Of(rxCount, code, b'), rest);
      RunIsFunctionOfBytes(rxCount, code, b', rest);
      assert chunks[..k + 1] == [chunks[0]] + rest[..k];
      assert b + (chunks[0] + Concat(rest[..k])) == b' + Concat(rest[..k]);
    }
  }

  lemma {:induction false} ConcatSplits(chunks: seq<string>, k: nat)
    requires k <= |chunks|
    ensures Concat(chunks) == Concat(chunks[..k]) + Concat(chunks[k..])
    decreases |chunks|
  {
    if k == 0 {
      assert chunks[0..] == chunks && Concat(chunks[..0]) == [];
    } else {
      ConcatSplits(chunks[1..], k - 1);
      assert chunks[..k] == [chunks[0]] + chunks[1..][..k - 1];
      assert chunks[1..][k - 1..] == chunks[k..];
    }
  }

  lemma OfKeepsBytes(rxCount: nat, code: Code, b: string)
    ensures Of(rxCount, code, b).buffer == b
  {
  }

  // Cutting a response into pieces makes no difference to any part of the outcome, except when bytes arrive after
  // the write that completed it: those are refused, while a single write would have kept them.
  lemma ChunkingIrrelevantIff(rxCount: nat, code: Code, chunks: seq<string>)
    ensures var s := Empty(rxCount, code);
            WriteAll(s, chunks) == WriteStep(s, Concat(chunks)).0
            <==> Concat(chunks[Taken(s, chunks)..]) == []
  {
    hide Of;
    hide WriteStep;
    var s := Empty(rxCount, code);
    var k := Taken(s, chunks);
    OfKeepsBytes(rxCount, code, Concat(chunks[..k]));
    OfKeepsBytes(rxCount, code, Concat(chunks));
    EmptyIsOf(rxCount, code);
    RunIsFunctionOfBytes(rxCount, code, [], chunks);
    WriteIsFunctionOfBytes(rxCount, code, [], Concat(chunks));
    ConcatSplits(chunks, k);
    var taken, refused := Concat(chunks[..k]), Concat(chunks[k..]);
    assert [] + Concat(chunks) == Concat(chunks) && [] + taken == taken;
    if refused == [] {
      assert taken + refused == taken;
    } else {
      assert |Concat(chunks)| != |taken|;
    }
  }

  lemma {:induction false} TakenAll(s: State, chunks: seq<string>)
    requires forall k :: 0 <= k < |chunks| ==> !WriteAll(s, chunks[..k]).ready
    ensures Taken(s, chunks) == |chunks|
    decreases |chunks|
  {
    if chunks != [] {
      assert WriteAll(s, chunks[..0]) == s;
      var s' := WriteStep(s, chunks[0]).0;
      forall k | 0 <= k < |chunks[1..]|
        ensures !WriteAll(s', chunks[1..][..k]).ready
      {
        assert chunks[..k + 1][1..] == chunks[1..][..k];
        assert !WriteAll(s, chunks[..k + 1]).ready;
      }
      TakenAll(s', chunks[1..]);
    }
  }

  // In particular none when no earlier write made the stream ready.
  lemma ChunkingIrrelevantUnlessReadyEarly(rxCount: nat, code: Code, chunks: seq<string>)
    requires forall k :: 0 <= k < |chunks| ==> !WriteAll(Empty(rxCount, code), chunks[..k]).ready
    ensures WriteAll(Empty(rxCount, code), chunks) == WriteStep(Empty(rxCount, code), Concat(chunks)).0
  {
    TakenAll(Empty(rxCount, code), chunks);
    ChunkingIrrelevantIff(rxCount, code, chunks);
  }

  // ----- What the parts mean

  // countLines counts the lines that split will return, but for a last one that is not terminated yet.
  lemma {:induction false} CountedLinesAreSplitLines(b: string, from: nat, n: nat)
    requires from <= |b|
    ensures var (p, m) := CountLines(b, from, n);
            p <= |b| && n + |SplitFrom(b, from)| == m + (if p < |b| then 1 else 0)
    decreases |b| - from
  {
    if Find(b, from).Some? {
      var pos := Find(b, from).value;
      CountedLinesAreSplitLines(b, pos + 2, if from != pos then n + 1 else n);
    }
  }

  // A ready response that opened with its code has the lines asked for; more than these, of any ready response,
  // turn the code into TOKENS, and nothing else does.
  lemma ReadyResponseLines(rxCount: nat, code: Code, b: string)
    requires Of(rxCount, code, b).ready && 0 < rxCount
    ensures var s := Of(rxCount, code, b);
            && s.result.response == Split(b)
            && (s.atAtTheBegin ==> rxCount <= |s.result.response|)
            && (s.result.code == TOKENS <==> rxCount < |s.result.response|)
  {
    hide SplitFrom;
    hide CountLines;
    hide EndLine;
    hide BeginLine;
    CountedLinesAreSplitLines(b, 0, 0);
  }

  // The line between the last two delimiters is the one that decides.
  lemma LastTerminatedLineDecides(head: string, line: string, tail: string)
    requires Find(line, 0).None? && Find(tail, 0).None?
    ensures EndLine(head + "\r\n" + line + "\r\n" + tail) == Some(line)
  {
    var b := head + "\r\n" + line + "\r\n" + tail;
    var pos2, pos := |head|, |head| + 2 + |line|;
    assert forall p :: 0 <= p < |tail| ==> b[pos + 2 + p] == tail[p];
    assert forall p :: 0 <= p < |line| ==> b[pos2 + 2 + p] == line[p];
    NoDelimiterInside(b, pos, |b|, tail);
    NoDelimiterInside(b, pos2, pos, line);
    RFindIs(b, |b|, pos);
    RFindIs(b, pos - 2, pos2);
    assert b[pos2 + 2..pos] == line;
  }

  // Between a delimiter and a later position there is no other, if the text between them has none.
  lemma NoDelimiterInside(b: string, from: nat, to: nat, text: string)
    requires DelimiterAt(b, from) && from + 2 + |text| == to <= |b|
    requires to == |b| || DelimiterAt(b, to)
    requires forall p :: 0 <= p < |text| ==> b[from + 2 + p] == text[p]
    requires Find(text, 0).None?
    ensures forall p :: from < p < to ==> !DelimiterAt(b, p)
  {
    forall p | from + 2 <= p < to
      ensures !DelimiterAt(b, p)
    {
      assert !DelimiterAt(text, p - from - 2);
    }
  }

  lemma EmptyHasNoDelimiter()
    ensures Find([], 0).None?
  {
  }

  // What is reported of a judged line: numbered errors become ERROR with their number, or Unknown if it is not listed.
  function ReportedCode(p: Parsed): Code {
    if p.code == CME_ERROR || p.code == CMS_ERROR then ERROR else p.code
  }

  function ReportedError(p: Parsed): ErrorCode {
    match (p.code, p.errcode)
    case (CME_ERROR, Some(n)) => Equipment(if IsEquipmentError(n) then n else UNKNOWN)
    case (CMS_ERROR, Some(n)) => Network(if IsNetworkError(n) then n else UNKNOWN)
    case _ => Equipment(NO_INFORMATION)
  }

  lemma FinishReports(p: Parsed, errcode: nat, lines: seq<string>, rxCount: nat)
    requires p.code == CME_ERROR || p.code == CMS_ERROR <==> p.errcode.Some?
    requires p.errcode.Some? ==> errcode == p.errcode.value
    ensures Finish(Result(p.code, Equipment(NO_INFORMATION), []), errcode, lines, rxCount)
            == Result(if rxCount != 0 && |lines| > rxCount then TOKENS else ReportedCode(p), ReportedError(p), lines)
  {
    assert [] + lines == lines;
  }

  // Without a code at the beginning, a code in the text looked at in the end completes the response, with all lines.
  lemma EndVerdictReported(rxCount: nat, code: Code, b: string, line: string)
    requires CodeOf(BeginLine(b)).code == NONE && EndLine(b) == Some(line) && ParseState(line).code != NONE
    ensures var s, p := Of(rxCount, code, b), ParseState(line);
            && s.ready && s.result.response == Split(b)
            && s.result.code == (if rxCount != 0 && |Split(b)| > rxCount then TOKENS else ReportedCode(p))
            && s.result.errorCode == ReportedError(p)
  {
    ParseStateErrcode(line);
    if BeginLine(b).Some? {
      ParseStateErrcode(BeginLine(b).value);
    }
    hide ParseState;
    hide BeginLine;
    hide EndLine;
    hide Split;
    hide CountLines;
    hide Finish;
    var p := ParseState(line);
    FinishReports(p, if p.errcode.Some? then p.errcode.value else 0, Split(b), rxCount);
  }

  // So it is for a response that ends with a result code, whatever comes before.
  lemma FinalCodeReported(rxCount: nat, head: string, line: string, code: Code)
    requires Find(line, 0).None? && ParseState(line).code != NONE
    requires CodeOf(BeginLine(head + "\r\n" + line + "\r\n")).code == NONE
    ensures var b := head + "\r\n" + line + "\r\n";
            var s, p := Of(rxCount, code, b), ParseState(line);
            && s.ready && s.result.response == Split(b)
            && s.result.code == (if rxCount != 0 && |Split(b)| > rxCount then TOKENS else ReportedCode(p))
            && s.result.errorCode == ReportedError(p)
  {
    hide ParseState;
    hide BeginLine;
    hide EndLine;
    hide SplitFrom;
    hide Find;
    hide Of;
    var b := head + "\r\n" + line + "\r\n";
    EmptyHasNoDelimiter();
    LastTerminatedLineDecides(head, line, []);
    assert b + [] == b;
    EndVerdictReported(rxCount, code, b, line);
  }

  // ----- Is the line that completes a response always terminated?

  // A text that stands between two delimiters of b.
  ghost predicate Terminated(b: string, line: string) {
    exists p, q :: LineAt(b, p, q, line)
  }

  ghost predicate LineAt(b: string, p: nat, q: nat, line: string) {
    p + 2 <= q && DelimiterAt(b, p) && DelimiterAt(b, q) && line == b[p + 2..q]
  }

  // For every text, by its last delimiter: at index 2 or later, the text looked at is the line it terminates, or none if no
  // other delimiter is before that; below, where the subtraction wraps round, it is the rest of the text.
  lemma EndLineByLastDelimiter(b: string)
    ensures RFind(b, |b|).None? ==> EndLine(b).None?
    ensures RFind(b, |b|).Some? && RFind(b, |b|).value < 2 ==> EndLine(b) == Some(b[RFind(b, |b|).value + 2..])
    ensures RFind(b, |b|).Some? && 2 <= RFind(b, |b|).value ==>
              var pos := RFind(b, |b|).value;
              && (EndLine(b).Some? <==> exists p: nat :: p + 2 <= pos && DelimiterAt(b, p))
              && (EndLine(b).Some? ==> exists p :: LineAt(b, p, pos, EndLine(b).value))
  {
    hide RFind;
    if RFind(b, |b|).Some? {
      var pos := RFind(b, |b|).value;
      if pos < 2 {
        RFindIs(b, |b|, pos);
      } else {
        var r := RFind(b, pos - 2);
        if r.Some? {
          assert LineAt(b, r.value, pos, b[r.value + 2..pos]);
        }
      }
    }
  }

  // The text looked at in the end is terminated exactly when the last delimiter is at index 2 or later.
  lemma EndLineTerminatedIff(b: string)
    requires EndLine(b).Some?
    ensures RFind(b, |b|).Some?
    ensures Terminated(b, EndLine(b).value) <==> 2 <= RFind(b, |b|).value
  {
    EndLineByLastDelimiter(b);
    hide RFind;
    hide EndLine;
    var pos := RFind(b, |b|).value;
    if Terminated(b, EndLine(b).value) {
      var p, q :| LineAt(b, p, q, EndLine(b).value);
      assert q <= pos;
    }
  }

  lemma BeginLineTerminated(b: string)
    requires BeginLine(b).Some?
    ensures Terminated(b, BeginLine(b).value) && RFind(b, |b|).Some? && 2 <= RFind(b, |b|).value
  {
    var q := Find(b, 2).value;
    assert LineAt(b, 0, q, BeginLine(b).value);
    hide RFind;
    assert DelimiterAt(b, q);
  }

  // The line whose code counts.
  function DecidingLine(b: string): Option<string> {
    if CodeOf(BeginLine(b)).code != NONE then BeginLine(b) else EndLine(b)
  }

  // A ready response has been decided by a terminated line if and only if its last delimiter is at index 2 or later.
  lemma DecidedByTerminatedLineIff(rxCount: nat, code: Code, b: string)
    requires Of(rxCount, code, b).ready
    ensures DecidingLine(b).Some? && ParseState(DecidingLine(b).value).code != NONE && RFind(b, |b|).Some?
    ensures Terminated(b, DecidingLine(b).value) <==> 2 <= RFind(b, |b|).value
  {
    hide ParseState;
    hide SplitFrom;
    hide CountLines;
    hide RFind;
    hide Find;
    hide BeginLine;
    hide EndLine;
    if CodeOf(BeginLine(b)).code != NONE {
      BeginLineTerminated(b);
    } else {
      EndLineTerminatedIff(b);
    }
  }

  // So a text makes the stream ready on an unterminated line if and only if its last delimiter is below index 2 and
  // what follows it is a result code.
  lemma ReadyUnterminatedIff(rxCount: nat, code: Code, b: string)
    ensures (&& Of(rxCount, code, b).ready && DecidingLine(b).Some?
             && !Terminated(b, DecidingLine(b).value))
            <==> (&& RFind(b, |b|).Some? && RFind(b, |b|).value < 2
                  && ParseState(b[RFind(b, |b|).value + 2..]).code != NONE)
  {
    hide ParseState;
    hide SplitFrom;
    hide CountLines;
    hide RFind;
    hide Find;
    hide BeginLine;
    hide EndLine;
    EndLineByLastDelimiter(b);
    if BeginLine(b).Some? {
      BeginLineTerminated(b);
    }
    if Of(rxCount, code, b).ready {
      DecidedByTerminatedLineIff(rxCount, code, b);
    }
    if RFind(b, |b|).Some? && RFind(b, |b|).value < 2 && ParseState(b[RFind(b, |b|).value + 2..]).code != NONE {
      EndVerdictReported(rxCount, code, b, b[RFind(b, |b|).value + 2..]);
      DecidedByTerminatedLineIff(rxCount, code, b);
    }
  }

  // These texts: at most one character, the only delimiter, and an unterminated code.
  lemma UnterminatedCodeCompletes(rxCount: nat, head: string, line: string, code: Code)
    requires |head| < 2 && Find(line, 0).None? && ParseState(line).code != NONE
    ensures var b := head + "\r\n" + line;
            var s, p := Of(rxCount, code, b), ParseState(line);
            && EndLine(b) == Some(line) && !Terminated(b, line)
            && s.ready && s.result.response == Split(b)
            && s.result.code == (if rxCount != 0 && |Split(b)| > rxCount then TOKENS else ReportedCode(p))
            && s.result.errorCode == ReportedError(p)
  {
    hide ParseState;
    var b := head + "\r\n" + line;
    assert forall p :: 0 <= p < |line| ==> b[|head| + 2 + p] == line[p];
    NoDelimiterInside(b, |head|, |b|, line);
    RFindIs(b, |b|, |head|);
    assert b[|head| + 2..] == line;
    hide RFind;
    hide Find;
    hide BeginLine;
    hide EndLine;
    hide SplitFrom;
    hide Of;
    EndLineByLastDelimiter(b);
    EndLineTerminatedIff(b);
    if BeginLine(b).Some? {
      BeginLineTerminated(b);
    }
    EndVerdictReported(rxCount, code, b, line);
  }

  // ----- Error responses

  // The response +CME ERROR: n or +CMS ERROR: n.
  function ErrorResponse(prefix: string, n: nat): string {
    "\r\n" + (prefix + " " + Decimal(n)) + "\r\n"
  }

  lemma ErrorLineParses(prefix: string, n: nat)
    requires (prefix == CME || prefix == CMS) && n < 0x8000_0000
    ensures ParseState(prefix + " " + Decimal(n)) == Parsed(if prefix == CME then CME_ERROR else CMS_ERROR, Some(n))
  {
    hide Decimal;
    hide Trim;
    hide ToNumeric;
    var line := prefix + " " + Decimal(n);
    NumberReadsBack(n);
    assert |prefix| == 11 && |line| > 11;
    assert line[..11] == prefix && line[11..] == " " + Decimal(n);
    assert CME[3] != CMS[3];
  }

  lemma NoDelimiterInErrorLine(prefix: string, n: nat)
    requires prefix == CME || prefix == CMS
    ensures Find(prefix + " " + Decimal(n), 0).None?
  {
    var line := prefix + " " + Decimal(n);
    forall p | 0 <= p < |line|
      ensures line[p] != '\r'
    {
      if p < 11 { assert line[p] == prefix[p]; } else if 12 <= p { assert IsDigit(Decimal(n)[p - 12]); }
    }
  }

  // A complete error response is recognised, and reported with its number where the number is known.
  lemma ErrorResponseReported(prefix: string, n: nat, code: Code)
    requires (prefix == CME || prefix == CMS) && n < 0x8000_0000
    ensures var s := Of(0, code, ErrorResponse(prefix, n));
            && s.ready && s.result.code == ERROR
            && s.result.errorCode == if prefix == CME then Equipment(if IsEquipmentError(n) then n else UNKNOWN)
                                     else Network(if IsNetworkError(n) then n else UNKNOWN)
  {
    var line := prefix + " " + Decimal(n);
    var b := ErrorResponse(prefix, n);
    ErrorLineParses(prefix, n);
    NoDelimiterInErrorLine(prefix, n);
    BeginLineOfOneLine(line);
    hide ParseState;
    hide Find;
    hide RFind;
    hide SplitFrom;
    hide BeginLine;
  }

  // In a response of one line, that line is the first.
  lemma BeginLineOfOneLine(line: string)
    requires Find(line, 0).None? && 2 <= |line|
    ensures BeginLine("\r\n" + line + "\r\n") == Some(line)
  {
    var b := "\r\n" + line + "\r\n";
    var pos := 2 + |line|;
    assert DelimiterAt(b, 0) && DelimiterAt(b, pos);
    assert forall p :: 0 <= p < |line| ==> b[2 + p] == line[p];
    NoDelimiterInside(b, 0, pos, line);
    assert Find(b, 2) == Some(pos);
    assert b[2..pos] == line;
  }

  lemma DecimalGrows(n: nat, d: nat)
    requires 1 <= n && d < 10
    ensures Decimal(10 * n + d) == Decimal(n) + [Digit(d)]
  {
    assert (10 * n + d) / 10 == n && (10 * n + d) % 10 == d;
  }

  lemma CutInsideNumber(prefix: string, n: nat, d: nat)
    requires 1 <= n && d < 10
    ensures ("\r\n" + (prefix + " " + Decimal(n))) + ([Digit(d)] + "\r\n") == ErrorResponse(prefix, 10 * n + d)
  {
    hide Decimal;
    DecimalGrows(n, d);
    var s := Decimal(n);
    assert prefix + " " + (s + [Digit(d)]) == (prefix + " " + s) + [Digit(d)];
  }

  // But a write that ends inside the number completes the response too early: it is reported with the digits seen so
  // far, and those still to come are refused.
  lemma TruncatedErrorNumber(prefix: string, n: nat, d: nat, code: Code)
    requires (prefix == CME || prefix == CMS) && 1 <= n < 0x8000_0000 && d < 10
    ensures var cut := "\r\n" + (prefix + " " + Decimal(n));
            var rest := [Digit(d)] + "\r\n";
            var s := Of(0, code, cut);
            && cut + rest == ErrorResponse(prefix, 10 * n + d)
            && s.ready && s.result.code == ERROR
            && s.result.errorCode == (if prefix == CME then Equipment(if IsEquipmentError(n) then n else UNKNOWN)
                                      else Network(if IsNetworkError(n) then n else UNKNOWN))
            && WriteAll(s, [rest]) == s
  {
    hide Decimal;
    hide ErrorResponse;
    hide Of;
    hide ParseState;
    var line := prefix + " " + Decimal(n);
    CutInsideNumber(prefix, n, d);
    ErrorLineParses(prefix, n);
    NoDelimiterInErrorLine(prefix, n);
    UnterminatedCodeCompletes(0, "", line, code);
    assert "" + "\r\n" + line == "\r\n" + line;
    ReadyStays(Of(0, code, "\r\n" + line), [[Digit(d)] + "\r\n"]);
  }
}
