/** The text helpers behind the modem response assembler: searching for the CR LF delimiter as
    std::string::find and rfind do, utils::split, utils::trim and utils::toNumeric. */
module AtText {
  import opened Options

  predicate DelimiterAt(s: string, p: nat) {
    p + 2 <= |s| && s[p] == '\r' && s[p + 1] == '\n'
  }

  // std::string::find("\r\n", from)
  function Find(s: string, from: nat): (r: Option<nat>)
    ensures r.Some? ==> from <= r.value && DelimiterAt(s, r.value)
    ensures r.Some? ==> forall p :: from <= p < r.value ==> !DelimiterAt(s, p)
    ensures r.None? ==> forall p :: from <= p ==> !DelimiterAt(s, p)
    decreases |s| - from
  {
    if |s| < from + 2 then None
    else if DelimiterAt(s, from) then Some(from)
    else Find(s, from + 1)
  }

  // std::string::rfind("\r\n", upTo)
  function RFind(s: string, upTo: nat): (r: Option<nat>)
    ensures r.Some? ==> r.value <= upTo && DelimiterAt(s, r.value)
    ensures r.Some? ==> forall p :: r.value < p <= upTo ==> !DelimiterAt(s, p)
    ensures r.None? ==> forall p :: 0 <= p <= upTo ==> !DelimiterAt(s, p)
    decreases upTo
  {
    if DelimiterAt(s, upTo) then Some(upTo)
    else if upTo == 0 then None
    else if |s| < upTo then
      RFind(s, |s|)
    else RFind(s, upTo - 1)
  }

  lemma RFindIs(s: string, upTo: nat, p: nat)
    requires p <= upTo && DelimiterAt(s, p) && forall q :: p < q <= upTo ==> !DelimiterAt(s, q)
    ensures RFind(s, upTo) == Some(p)
  {
    var r := RFind(s, upTo);
    assert r.Some? && DelimiterAt(s, r.value);
  }

  // A delimiter found in a text is found at the same place in any longer text.
  lemma FindInLonger(s: string, t: string, from: nat)
    requires Find(s, from).Some?
    ensures Find(s + t, from) == Find(s, from)
  {
    var p := Find(s, from).value;
    assert DelimiterAt(s + t, p);
    assert forall q :: from <= q < p ==> (DelimiterAt(s + t, q) <==> DelimiterAt(s, q));
  }

  // utils::split with empty tokens skipped, from position `from`
  function SplitFrom(s: string, from: nat): seq<string>
    requires from <= |s|
    decreases |s| - from
  {
    match Find(s, from)
    case Some(p) => (if p != from then [s[from..p]] else []) + SplitFrom(s, p + 2)
    case None => if from < |s| then [s[from..]] else []
  }

  function Split(s: string): seq<string> {
    SplitFrom(s, 0)
  }

  predicate IsSpace(c: char) {
    c == ' ' || c == '\n' || c == '\r' || c == '\t' || c == '\U{000C}' || c == '\U{000B}'
  }

  function TrimLeft(s: string): string {
    if s != [] && IsSpace(s[0]) then TrimLeft(s[1..]) else s
  }

  function TrimRight(s: string): string {
    if s != [] && IsSpace(s[|s| - 1]) then TrimRight(s[..|s| - 1]) else s
  }

  function Trim(s: string): string {
    TrimRight(TrimLeft(s))
  }

  predicate IsDigit(c: char) { '0' <= c <= '9' }

  // The value of the leading digits of s, continuing from acc.
  function LeadingDigits(s: string, acc: nat): nat {
    if s != [] && IsDigit(s[0]) then LeadingDigits(s[1..], 10 * acc + (s[0] as int - '0' as int)) else acc
  }

  // std::stoi: optional sign and at least one digit; the rest of the text is ignored; None on any exception.
  function ToNumeric(text: string): (r: Option<int>)
    ensures r.Some? ==> -0x8000_0000 <= r.value < 0x8000_0000
  {
    var s := TrimLeft(text);
    var signed := s != [] && (s[0] == '-' || s[0] == '+');
    var digits := if signed then s[1..] else s;
    if digits == [] || !IsDigit(digits[0]) then None
    else
      var v := LeadingDigits(digits, 0);
      var n: int := if s[0] == '-' then 0 - v else v;
      if -0x8000_0000 <= n < 0x8000_0000 then Some(n) else None
  }

  // ----- Numbers there and back

  function Digit(d: nat): (c: char)
    requires d < 10
    ensures IsDigit(c) && c as int - '0' as int == d
  {
    (('0' as int) + d) as char
  }

  function Decimal(n: nat): (s: string)
    ensures s != [] && forall i :: 0 <= i < |s| ==> IsDigit(s[i])
  {
    if n < 10 then [Digit(n)] else Decimal(n / 10) + [Digit(n % 10)]
  }

  lemma {:induction false} LeadingDigitsAppend(s: string, d: nat, acc: nat)
    requires d < 10 && forall i :: 0 <= i < |s| ==> IsDigit(s[i])
    ensures LeadingDigits(s + [Digit(d)], acc) == 10 * LeadingDigits(s, acc) + d
    decreases |s|
  {
    var t := s + [Digit(d)];
    if s == [] {
      assert t[1..] == [];
    } else {
      assert t[1..] == s[1..] + [Digit(d)];
      LeadingDigitsAppend(s[1..], d, 10 * acc + (s[0] as int - '0' as int));
    }
  }

  lemma {:induction false} DecimalReadsBack(n: nat)
    ensures LeadingDigits(Decimal(n), 0) == n
  {
    if n < 10 {
      assert Decimal(n)[1..] == [];
    } else {
      DecimalReadsBack(n / 10);
      LeadingDigitsAppend(Decimal(n / 10), n % 10, 0);
    }
  }

  lemma {:induction false} LeadingDigitsStop(s: string, tail: string, acc: nat)
    requires forall i :: 0 <= i < |s| ==> IsDigit(s[i])
    requires tail == [] || !IsDigit(tail[0])
    ensures LeadingDigits(s + tail, acc) == LeadingDigits(s, acc)
    decreases |s|
  {
    if s == [] {
      assert s + tail == tail;
    } else {
      assert (s + tail)[1..] == s[1..] + tail;
      LeadingDigitsStop(s[1..], tail, 10 * acc + (s[0] as int - '0' as int));
    }
  }

  // A decimal number, with or without a sign, is read up to the first character that is no digit, and refused
  // exactly when it does not fit an int.
  lemma NumberIsRead(sign: string, n: nat, tail: string)
    requires sign == "" || sign == "-" || sign == "+"
    requires tail == [] || !IsDigit(tail[0])
    ensures var v: int := if sign == "-" then 0 - n else n;
            ToNumeric(sign + Decimal(n) + tail) == if -0x8000_0000 <= v < 0x8000_0000 then Some(v) else None
  {
    var digits := Decimal(n) + tail;
    var s := sign + Decimal(n) + tail;
    DecimalReadsBack(n);
    LeadingDigitsStop(Decimal(n), tail, 0);
    assert IsDigit(Decimal(n)[0]) && digits[0] == Decimal(n)[0];
    if sign == "" {
      assert s == digits;
    } else {
      assert s[0] == sign[0] && s[1..] == digits;
    }
    hide Decimal;
    hide LeadingDigits;
  }

  // What does not begin, after blanks and a sign, with a digit is refused.
  lemma NoDigitIsRefused(text: string)
    requires var s := TrimLeft(text);
             var digits := if s != [] && (s[0] == '-' || s[0] == '+') then s[1..] else s;
             digits == [] || !IsDigit(digits[0])
    ensures ToNumeric(text) == None
  {
  }

  // A number written after a blank is read back, if it fits an int.
  lemma NumberReadsBack(n: nat)
    requires n < 0x8000_0000
    ensures Trim(" " + Decimal(n)) == Decimal(n) && ToNumeric(Decimal(n)) == Some(n)
  {
    var s := Decimal(n);
    NumberIsRead("", n, "");
    assert "" + s + "" == s;
    assert IsDigit(s[0]) && IsDigit(s[|s| - 1]);
    assert (" " + s)[1..] == s;
    assert TrimLeft(s) == s && TrimLeft(" " + s) == s && TrimRight(s) == s;
  }
}
