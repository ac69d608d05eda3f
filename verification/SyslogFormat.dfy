/**
 The syslog message format (lib/LogCore/src/SyslogFormat.cpp): a bounded printer into a character buffer, and
 parsers of section 6 of RFC 5424 and of sections 4.1 and 4.3.2 of RFC 3164 that read back what it printed.
 Characters stand for octets.
 */
module SyslogFormat {
  import opened Prelude

  datatype Protocol = RFC3164 | RFC5424

  /** The fields of a struct tm that are printed, as any integers. */
  datatype Tm = Tm(year: int, mon: int, mday: int, hour: int, min: int, sec: int)

  datatype SyslogTime = SyslogTime(local: Tm, utc: Tm, ms: nat)

  /** clampField() */
  function Clamp(v: int, lo: nat, hi: nat): (r: nat)
    requires lo <= hi
    ensures lo <= r <= hi && (lo <= v <= hi ==> r == v)
  {
    if v < lo then lo else if v > hi then hi else v
  }

  /** Of all numbers in the range it is the nearest. */
  lemma ClampIsNearest(v: int, lo: nat, hi: nat, x: nat)
    requires lo <= x <= hi
    ensures lo <= Clamp(v, lo, hi) <= hi
    ensures (if v <= Clamp(v, lo, hi) then Clamp(v, lo, hi) - v else v - Clamp(v, lo, hi)) <=
            (if v <= x then x - v else v - x)
  {
  }

  /** PRI from a facility and a severity; codes outside their range become user and informational. */
  function Pri(facility: nat, severity: nat): (r: nat)
    ensures r <= 191
  {
    (if facility > 23 then 1 else facility) * 8 + (if severity > 7 then 6 else severity)
  }

  /** RFC 5424 PRINTUSASCII */
  predicate PrintUsAscii(c: char) {
    33 <= c as int <= 126
  }

  predicate Alphanumeric(c: char) {
    'a' <= c <= 'z' || 'A' <= c <= 'Z' || '0' <= c <= '9'
  }

  /** isTagChar(): more than the TAG of RFC 3164 may have. */
  predicate TagChar(c: char) {
    Alphanumeric(c) || c == '-' || c == '_'
  }

  // ----- Tokens -----

  /** At most the first n characters. */
  function Cut(s: string, n: nat): (r: string)
    ensures r <= s && |r| == Min(|s|, n)
  {
    if |s| <= n then s else s[..n]
  }

  function Filter(s: string, keep: char -> bool): (r: string)
    ensures forall c <- r :: keep(c)
  {
    if s == "" then "" else (if keep(s[0]) then [s[0]] else []) + Filter(s[1..], keep)
  }

  /** The first characters of a C string that are kept, at most max. */
  function Kept(s: string, max: nat, keep: char -> bool): (r: string)
    ensures |r| <= max
  {
    Cut(Filter(CStr(s), keep), max)
  }

  /** copyToken(): the first characters kept, "-" when there is none. */
  function Token(s: string, max: nat, keep: char -> bool): (r: string)
    ensures 0 < |r| <= Max(max, 1) && (forall c <- r :: keep(c) || c == '-')
  {
    var kept := Kept(s, max, keep);
    if kept == "" then "-" else kept
  }

  lemma CutNext(c: char, s: string, n: nat)
    requires n > 0
    ensures Cut([c] + s, n) == [c] + Cut(s, n - 1)
  {
  }

  lemma KeptEnds(s: string, max: nat, keep: char -> bool)
    requires s == "" || s[0] == '\0' || max == 0
    ensures Kept(s, max, keep) == ""
  {
  }

  lemma KeptStep(s: string, max: nat, keep: char -> bool)
    requires s != "" && s[0] != '\0' && max > 0
    ensures Kept(s, max, keep) ==
      (if keep(s[0]) then [s[0]] + Kept(s[1..], max - 1, keep) else Kept(s[1..], max, keep))
  {
    var rest := Filter(CStr(s[1..]), keep);
    assert CStr(s)[1..] == CStr(s[1..]);
    assert Filter(CStr(s), keep) == (if keep(s[0]) then [s[0]] else []) + rest;
    CutNext(s[0], rest, max);
    assert [] + rest == rest;
  }

  lemma Associate(a: string, c: char, b: string)
    ensures a + ([c] + b) == (a + [c]) + b
  {
  }

  /** What was copied and what the rest of the text gives, with room for so many more, make up the token. */
  ghost predicate Copying(copied: string, rest: string, room: nat, keep: char -> bool, all: string) {
    copied + Kept(rest, room, keep) == all
  }

  lemma CopyingStarts(text: string, room: nat, keep: char -> bool)
    ensures Copying("", text, room, keep, Kept(text, room, keep))
  {
  }

  /** One turn of the loop of copyToken(). */
  lemma CopyingOn(copied: string, rest: string, room: nat, keep: char -> bool, all: string)
    requires rest != "" && rest[0] != '\0' && room > 0 && Copying(copied, rest, room, keep, all)
    ensures if keep(rest[0]) then Copying(copied + [rest[0]], rest[1..], room - 1, keep, all)
            else Copying(copied, rest[1..], room, keep, all)
  {
    KeptStep(rest, room, keep);
    if keep(rest[0]) {
      Associate(copied, rest[0], Kept(rest[1..], room - 1, keep));
    }
  }

  lemma CopyingEnds(copied: string, rest: string, room: nat, keep: char -> bool, all: string)
    requires rest == "" || rest[0] == '\0' || room == 0
    requires Copying(copied, rest, room, keep, all)
    ensures copied == all
  {
    KeptEnds(rest, room, keep);
  }

  method Put(out: array<char>, n: nat, c: char)
    requires n < out.Length
    modifies out
    ensures out[..n + 1] == old(out[..n]) + [c]
  {
    out[n] := c;
  }

  /** The body of the loop of copyToken(). */
  method PutKept(out: array<char>, n: nat, c: char, keep: char -> bool) returns (m: nat)
    requires n < out.Length
    modifies out
    ensures m == (if keep(c) then n + 1 else n)
    ensures out[..m] == if keep(c) then old(out[..n]) + [c] else old(out[..n])
  {
    m := n;
    if keep(c) {
      Put(out, n, c);
      m := n + 1;
    }
  }

  /** The loop of copyToken(). */
  method CopyKept(out: array<char>, text: string, max: nat, keep: char -> bool) returns (n: nat)
    requires out.Length > 0
    modifies out
    ensures n < out.Length && out[..n] == Kept(text, Min(max, out.Length - 1), keep)
  {
    n := 0;
    ghost var room := Min(max, out.Length - 1);
    ghost var rest, all := text, Kept(text, room, keep);
    CopyingStarts(text, room, keep);
    var p := 0;
    while p < |text| && text[p] != '\0' && n < max && n + 1 < out.Length
      invariant p <= |text| && n <= room && rest == text[p..]
      invariant Copying(out[..n], rest, room - n, keep, all)
    {
      CopyingOn(out[..n], rest, room - n, keep, all);
      n := PutKept(out, n, text[p], keep);
      rest := rest[1..];
      p := p + 1;
    }
    CopyingEnds(out[..n], rest, room - n, keep, all);
  }

  /** A token cut to the buffer; a buffer of one character only holds the NUL. */
  method CopyToken(out: array<char>, s: Option<string>, max: nat, keep: char -> bool) returns (n: nat)
    requires out.Length > 0
    modifies out
    ensures n < out.Length && out[n] == '\0'
    ensures out[..n] ==
      if out.Length == 1 then "" else Token(if s.Some? then s.value else "", Min(max, out.Length - 1), keep)
  {
    n := 0;
    if s.Some? {
      n := CopyKept(out, s.value, max, keep);
    }
    if n == 0 && out.Length > 1 {
      out[0] := '-';
      n := 1;
    }
    out[n] := '\0';
  }

  // ----- Numbers -----

  function Pow10(w: nat): (r: nat)
    ensures r > 0
  {
    if w == 0 then 1 else 10 * Pow10(w - 1)
  }

  /** "%0wu" of a number of at most w digits. */
  function Padded(n: nat, w: nat): (s: string)
    ensures |s| == w
  {
    if w == 0 then "" else Padded(n / 10, w - 1) + [Digit(n % 10)]
  }

  predicate IsDigit(c: char) {
    '0' <= c <= '9'
  }

  function DigitOf(c: char): (r: nat) {
    if IsDigit(c) then c as int - 48 else 0
  }

  function ValueOf(s: string): (r: nat)
    requires forall c <- s :: IsDigit(c)
  {
    if s == "" then 0
    else
      assert s[|s| - 1] in s;
      10 * ValueOf(s[..|s| - 1]) + DigitOf(s[|s| - 1])
  }

  /** The value of a string of digits. */
  function Value(s: string): (r: Option<nat>) {
    if s == "" || !(forall c <- s :: IsDigit(c)) then None else Some(ValueOf(s))
  }

  lemma {:induction false} PaddedReads(n: nat, w: nat)
    requires n < Pow10(w)
    ensures (forall c <- Padded(n, w) :: IsDigit(c)) && ValueOf(Padded(n, w)) == n
    decreases w
  {
    if w > 0 {
      PaddedReads(n / 10, w - 1);
      var front := Padded(n / 10, w - 1);
      assert Padded(n, w)[..w - 1] == front;
    }
  }

  lemma {:induction false} DecimalReads(n: nat)
    ensures (forall c <- Decimal(n) :: IsDigit(c)) && ValueOf(Decimal(n)) == n
    decreases n
  {
    if n < 10 {
      assert Decimal(n)[..0] == "";
    } else {
      DecimalReads(n / 10);
      var front := Decimal(n / 10);
      assert Decimal(n)[..|front|] == front;
    }
  }

  lemma {:induction false} DecimalStarts(n: nat)
    ensures n > 0 ==> Decimal(n)[0] != '0'
    decreases n
  {
    if n >= 10 {
      DecimalStarts(n / 10);
      assert Decimal(n)[0] == Decimal(n / 10)[0];
    }
  }

  lemma DecimalOfPri(n: nat)
    requires n <= 191
    ensures 1 <= |Decimal(n)| <= 3
  {
    if n >= 10 {
      assert Decimal(n) == Decimal(n / 10) + [Digit(n % 10)];
      if n >= 100 {
        assert |Decimal(n / 10 / 10)| == 1;
      }
    }
  }

  function Total(widths: seq<nat>): (r: nat) {
    if widths == [] then 0 else widths[0] + 1 + Total(widths[1..])
  }

  /** Numbers of fixed widths, each followed by its separator. */
  function PrintNumbers(values: seq<nat>, widths: seq<nat>, seps: string): (s: string)
    requires |values| == |widths| == |seps|
    ensures |s| == Total(widths)
    decreases |values|
  {
    if values == [] then ""
    else Padded(values[0], widths[0]) + ([seps[0]] + PrintNumbers(values[1..], widths[1..], seps[1..]))
  }

  function ParseNumbers(s: string, widths: seq<nat>, seps: string): (r: Option<(seq<nat>, string)>)
    requires |widths| == |seps|
    decreases |widths|
  {
    if widths == [] then Some(([], s))
    else
      var w := widths[0];
      if |s| <= w || s[w] != seps[0] || Value(s[..w]).None? then None
      else
        var rest := ParseNumbers(s[w + 1..], widths[1..], seps[1..]);
        if rest.None? then None else Some(([Value(s[..w]).value] + rest.value.0, rest.value.1))
  }

  predicate Fit(values: seq<nat>, widths: seq<nat>) {
    |values| == |widths| && forall i :: 0 <= i < |values| ==> widths[i] > 0 && values[i] < Pow10(widths[i])
  }

  /** Where the first number of a list ends. */
  lemma FirstNumber(first: string, sep: char, tail: string)
    ensures var s := first + ([sep] + tail);
      |s| > |first| && s[|first|] == sep && s[..|first|] == first && s[|first| + 1..] == tail
  {
  }

  lemma Regroup(a: string, b: string, c: string, d: string)
    ensures (a + (b + c)) + d == a + (b + (c + d))
  {
  }

  lemma {:induction false} NumbersRoundTrip(values: seq<nat>, widths: seq<nat>, seps: string, rest: string)
    requires Fit(values, widths) && |seps| == |values|
    ensures ParseNumbers(PrintNumbers(values, widths, seps) + rest, widths, seps) == Some((values, rest))
    decreases |values|
  {
    if values == [] {
      assert PrintNumbers(values, widths, seps) + rest == rest;
    } else {
      var first, tail := Padded(values[0], widths[0]), PrintNumbers(values[1..], widths[1..], seps[1..]);
      Regroup(first, [seps[0]], tail, rest);
      FirstNumber(first, seps[0], tail + rest);
      PaddedReads(values[0], widths[0]);
      NumbersRoundTrip(values[1..], widths[1..], seps[1..], rest);
      assert [values[0]] + values[1..] == values;
    }
  }

  // ----- Headers -----

  const WIDTHS_5424: seq<nat> := [4, 2, 2, 2, 2, 2, 3]
  const SEPS_5424: string := ['-', '-', 'T', ':', ':', '.', 'Z']
  const WIDTHS_3164: seq<nat> := [2, 2, 2]
  const SEPS_3164: string := [':', ':', ' ']

  const MONTHS: seq<string> :=
    ["Jan", "Feb", "Mar", "Apr", "May", "Jun", "Jul", "Aug", "Sep", "Oct", "Nov", "Dec"]

  lemma Powers()
    ensures Pow10(2) == 100 && Pow10(3) == 1000 && Pow10(4) == 10000
  {
    assert Pow10(0) == 1 && Pow10(1) == 10 * Pow10(0) && Pow10(2) == 10 * Pow10(1);
    assert Pow10(3) == 10 * Pow10(2) && Pow10(4) == 10 * Pow10(3);
  }

  /** Year, month, day, hour, minute, second and milliseconds, each in its range. */
  function Fields5424(t: Tm, ms: nat): (r: seq<nat>)
    ensures Fit(r, WIDTHS_5424)
  {
    Powers();
    [Clamp(t.year + 1900, 0, 9999), Clamp(t.mon, 0, 11) + 1, Clamp(t.mday, 1, 31), Clamp(t.hour, 0, 23),
     Clamp(t.min, 0, 59), Clamp(t.sec, 0, 60), if ms > 999 then 999 else ms]
  }

  function Fields3164(t: Tm): (r: seq<nat>)
    ensures Fit(r, WIDTHS_3164)
  {
    Powers();
    [Clamp(t.hour, 0, 23), Clamp(t.min, 0, 59), Clamp(t.sec, 0, 60)]
  }

  predicate Leap(year: nat) {
    year % 4 == 0 && (year % 100 != 0 || year % 400 == 0)
  }

  function DaysIn(year: nat, month: nat): (r: nat) {
    if month in {4, 6, 9, 11} then 30 else if month != 2 then 31 else if Leap(year) then 29 else 28
  }

  /** The ranges of RFC 5424, section 6: year, month, day of that month, hour, minute, second below 60. */
  predicate InRange5424(n: seq<nat>) {
    && |n| == 7 && 1 <= n[1] <= 12 && 1 <= n[2] <= DaysIn(n[0], n[1])
    && n[3] <= 23 && n[4] <= 59 && n[5] <= 59
  }

  /** Those of RFC 3164, section 4.1.2, the month counted from 0: a day the month has in some year. */
  predicate InRange3164(n: seq<nat>) {
    && |n| == 5 && n[0] <= 11 && 1 <= n[1] <= DaysIn(2000, n[0] + 1)
    && n[2] <= 23 && n[3] <= 59 && n[4] <= 59
  }

  function Stamp5424(t: Tm, ms: nat): (r: string) {
    PrintNumbers(Fields5424(t, ms), WIDTHS_5424, SEPS_5424)
  }

  /** "%2d" */
  function Day(d: nat): (s: string)
    requires d <= 31
    ensures |s| == 2
  {
    if d < 10 then [' ', Digit(d)] else [Digit(d / 10), Digit(d % 10)]
  }

  /** "Mmm dd hh:mm:ss " */
  function Stamp3164(t: Tm): (s: string)
    ensures |s| == 16
  {
    MONTHS[Clamp(t.mon, 0, 11)]
    + ([' '] + (Day(Clamp(t.mday, 1, 31)) + ([' '] + PrintNumbers(Fields3164(t), WIDTHS_3164, SEPS_3164))))
  }

  function PriText(pri: nat): (r: string) {
    ['<'] + (Decimal(pri) + ['>'])
  }

  /** Fields, each followed by a space. */
  function Spaced(fields: seq<string>): (r: string) {
    if fields == [] then "" else fields[0] + ([' '] + Spaced(fields[1..]))
  }

  function Text(s: Option<string>): (r: string) {
    if s.Some? then s.value else ""
  }

  /** Version, timestamp, host, application, and no process and message id. */
  function Fields(host: string, tag: string, time: Option<SyslogTime>): (r: seq<string>) {
    [['1'], if time.Some? then Stamp5424(time.value.utc, time.value.ms) else ['-'], host, tag, ['-'], ['-']]
  }

  /** What the snprintf() of the protocol prints before the message. */
  function HeaderOf(protocol: Protocol, pri: nat, host: string, tag: string, time: Option<SyslogTime>): (r: string) {
    match protocol
    case RFC5424 => PriText(pri) + (Spaced(Fields(host, tag, time)) + ['-', ' '])
    case RFC3164 =>
      if time.Some? then PriText(pri) + (Stamp3164(time.value.local) + (host + ([' '] + (tag + [':', ' ']))))
      else PriText(pri) + (tag + [':', ' '])
  }

  function Host(hostname: Option<string>): (r: string) {
    Token(Text(hostname), 63, PrintUsAscii)
  }

  function Tag(protocol: Protocol, app: Option<string>): (r: string) {
    if protocol == RFC5424 then Token(Text(app), 48, PrintUsAscii) else Token(Text(app), 32, TagChar)
  }

  function Header(protocol: Protocol, pri: nat, hostname: Option<string>, app: Option<string>,
                  time: Option<SyslogTime>): (r: string)
  {
    HeaderOf(protocol, pri, Host(hostname), Tag(protocol, app), time)
  }

  // ----- Messages -----

  function Blank(c: char): (r: char) {
    if (c as int) < 0x20 || c as int == 0x7F then ' ' else c
  }

  function Blanked(s: string): (r: string)
    ensures |r| == |s| && forall i :: 0 <= i < |r| ==> r[i] == Blank(s[i])
  {
    seq(|s|, i requires 0 <= i < |s| => Blank(s[i]))
  }

  function TrimRight(s: string): (r: string)
    ensures r <= s && (r != "" ==> r[|r| - 1] != ' ')
    ensures forall i :: |r| <= i < |s| ==> s[i] == ' '
  {
    if s != "" && s[|s| - 1] == ' ' then TrimRight(s[..|s| - 1]) else s
  }

  /** The message text that fits: blanked, cut, and without trailing blanks. */
  function Message(msg: Option<string>, room: nat): (r: string) {
    TrimRight(Cut(Blanked(CStr(Text(msg))), room))
  }

  /** A header and its text; a header without text loses its last space. */
  function Formatted(header: string, text: string): (r: string)
    ensures |r| <= |header| + |text|
  {
    if text == "" && header != "" && header[|header| - 1] == ' ' then header[..|header| - 1] else header + text
  }

  /** formatSyslogSeverity() into a buffer of cap characters. */
  function Format(cap: nat, header: string, msg: Option<string>): (r: string)
    ensures cap > 0 ==> |r| < cap
  {
    if |header| >= cap then "" else Formatted(header, Message(msg, cap - 1 - |header|))
  }

  // ----- Reading a message back -----

  /** What a receiver reads: the protocol's time fields, when there are any, and for RFC 5424 PROCID and MSGID. */
  datatype Parsed = Parsed(pri: nat, time: Option<seq<nat>>, host: Option<string>, app: string,
                           ids: Option<(string, string)>, msg: string)

  // The grammars, apart from the formats of the printer.

  /** FULL-DATE "T" hour ":" minute ":" second "." milliseconds "Z" */
  const DATE_TIME_WIDTHS: seq<nat> := [4, 2, 2, 2, 2, 2, 3]
  const DATE_TIME_SEPS: string := ['-', '-', 'T', ':', ':', '.', 'Z']

  /** hh:mm:ss and the space after it */
  const TIME_WIDTHS: seq<nat> := [2, 2, 2]
  const TIME_SEPS: string := [':', ':', ' ']

  /** Section 4.1.2 of RFC 3164. */
  const MONTH_NAMES: seq<string> :=
    ["Jan", "Feb", "Mar", "Apr", "May", "Jun", "Jul", "Aug", "Sep", "Oct", "Nov", "Dec"]

  lemma PrinterFollowsGrammar()
    ensures WIDTHS_5424 == DATE_TIME_WIDTHS && SEPS_5424 == DATE_TIME_SEPS
    ensures WIDTHS_3164 == TIME_WIDTHS && SEPS_3164 == TIME_SEPS
    ensures MONTHS == MONTH_NAMES
  {
  }

  /** The part before the first c, and the part after it. */
  function Until(s: string, c: char): (r: (string, Option<string>)) {
    if s == "" then ("", None)
    else if s[0] == c then ("", Some(s[1..]))
    else
      var rest := Until(s[1..], c);
      ([s[0]] + rest.0, rest.1)
  }

  lemma {:induction false} UntilFirst(f: string, c: char, rest: string)
    requires c !in f
    ensures Until(f + ([c] + rest), c) == (f, Some(rest))
    decreases |f|
  {
    var s := f + ([c] + rest);
    if f == "" {
      assert s == [c] + rest && s[1..] == rest;
    } else {
      assert s[0] == f[0] && s[1..] == f[1..] + ([c] + rest);
      UntilFirst(f[1..], c, rest);
      assert [f[0]] + f[1..] == f;
    }
  }

  lemma {:induction false} UntilNone(f: string, c: char)
    requires c !in f
    ensures Until(f, c) == (f, None)
    decreases |f|
  {
    if f != "" {
      UntilNone(f[1..], c);
      assert [f[0]] + f[1..] == f;
    }
  }

  /** PRI = "<" PRIVAL ">", 1*3DIGIT ; range 0 .. 191, no leading zero */
  function ParsePri(s: string): (r: Option<(nat, string)>) {
    if s == "" || s[0] != '<' then None
    else
      var (digits, rest) := Until(s[1..], '>');
      if rest.None? || |digits| > 3 || Value(digits).None? || Value(digits).value > 191
         || (|digits| > 1 && digits[0] == '0') then None
      else Some((Value(digits).value, rest.value))
  }

  function ParseFields(s: string, n: nat): (r: Option<(seq<string>, string)>)
    decreases n
  {
    if n == 0 then Some(([], s))
    else
      var (field, rest) := Until(s, ' ');
      if rest.None? then None
      else
        var more := ParseFields(rest.value, n - 1);
        if more.None? then None else Some(([field] + more.value.0, more.value.1))
  }

  predicate Name(s: string, max: nat) {
    1 <= |s| <= max && forall c <- s :: PrintUsAscii(c)
  }

  /** TIMESTAMP = NILVALUE / FULL-DATE "T" FULL-TIME, with milliseconds and UTC, in the ranges of the grammar. */
  function ParseStamp5424(s: string): (r: Option<Option<seq<nat>>>) {
    if s == ['-'] then Some(None)
    else
      var n := ParseNumbers(s, DATE_TIME_WIDTHS, DATE_TIME_SEPS);
      if n.None? || n.value.1 != "" || !InRange5424(n.value.0) then None else Some(Some(n.value.0))
  }

  function Read5424(pri: nat, f: seq<string>, rest: string): (r: Option<Parsed>) {
    var (data, msg) := Until(rest, ' ');
    if |f| != 6 || f[0] != ['1'] || !Name(f[2], 255) || !Name(f[3], 48) || !Name(f[4], 128) || !Name(f[5], 32)
       || data != ['-'] || ParseStamp5424(f[1]).None? then None
    else Some(Parsed(pri, ParseStamp5424(f[1]).value, Some(f[2]), f[3], Some((f[4], f[5])), Text(msg)))
  }

  /** SYSLOG-MSG = HEADER SP STRUCTURED-DATA [SP MSG], with no structured data. */
  function Parse5424(s: string): (r: Option<Parsed>) {
    var pri := ParsePri(s);
    if pri.None? then None
    else
      var fields := ParseFields(pri.value.1, 6);
      if fields.None? then None else Read5424(pri.value.0, fields.value.0, fields.value.1)
  }

  function MonthFrom(name: string, i: nat): (r: Option<nat>)
    requires i <= 12
    decreases 12 - i
  {
    if i == 12 then None else if MONTH_NAMES[i] == name then Some(i) else MonthFrom(name, i + 1)
  }

  /** "Mmm dd hh:mm:ss ": the month counted from 0, a day below 10 padded with a space. */
  function ParseStamp3164(s: string): (r: Option<(seq<nat>, string)>) {
    if |s| < 7 || s[3] != ' ' || s[6] != ' ' || (s[4] != ' ' && !('1' <= s[4] <= '3')) || !IsDigit(s[5]) then None
    else
      var month, hms := MonthFrom(s[..3], 0), ParseNumbers(s[7..], TIME_WIDTHS, TIME_SEPS);
      if month.None? || hms.None? then None
      else
        var n := [month.value, 10 * DigitOf(s[4]) + DigitOf(s[5])] + hms.value.0;
        if InRange3164(n) then Some((n, hms.value.1)) else None
  }

  /** The alphanumeric characters in front. */
  function AlnumPrefix(s: string): (r: string)
    ensures r <= s && (forall c <- r :: Alphanumeric(c)) && (|r| < |s| ==> !Alphanumeric(s[|r|]))
  {
    if s != "" && Alphanumeric(s[0]) then [s[0]] + AlnumPrefix(s[1..]) else ""
  }

  /** MSG = TAG CONTENT: the first character that is not alphanumeric ends the TAG and belongs to the CONTENT. */
  function ParseTag(s: string): (r: Option<(string, string)>) {
    var tag := AlnumPrefix(s);
    if |tag| > 32 then None else Some((tag, s[|tag|..]))
  }

  /** A message with a TIMESTAMP and a HOSTNAME; without a valid TIMESTAMP all of it is the MSG (section 4.3.2). */
  function Parse3164(s: string): (r: Option<Parsed>) {
    var pri := ParsePri(s);
    if pri.None? then None
    else
      var stamp := ParseStamp3164(pri.value.1);
      if stamp.None? then
        var tag := ParseTag(pri.value.1);
        if tag.None? then None else Some(Parsed(pri.value.0, None, None, tag.value.0, None, tag.value.1))
      else
        var (host, rest) := Until(stamp.value.1, ' ');
        if rest.None? || host == "" then None
        else
          var tag := ParseTag(rest.value);
          if tag.None? then None
          else Some(Parsed(pri.value.0, Some(stamp.value.0), Some(host), tag.value.0, None, tag.value.1))
  }

  // ----- Reading gives back what was printed -----

  lemma PriRoundTrip(pri: nat, rest: string)
    requires pri <= 191
    ensures ParsePri(PriText(pri) + rest) == Some((pri, rest))
  {
    var digits := Decimal(pri);
    DecimalReads(pri);
    DecimalOfPri(pri);
    DecimalStarts(pri);
    Regroup(['<'], digits, ['>'], rest);
    assert (['<'] + (digits + (['>'] + rest)))[1..] == digits + (['>'] + rest);
    UntilFirst(digits, '>', rest);
  }

  predicate NoSpace(fields: seq<string>) {
    forall f <- fields :: ' ' !in f
  }

  lemma {:induction false} FieldsRoundTrip(fields: seq<string>, rest: string)
    requires NoSpace(fields)
    ensures ParseFields(Spaced(fields) + rest, |fields|) == Some((fields, rest))
    decreases |fields|
  {
    if fields == [] {
      assert Spaced(fields) + rest == rest;
    } else {
      Regroup(fields[0], [' '], Spaced(fields[1..]), rest);
      UntilFirst(fields[0], ' ', Spaced(fields[1..]) + rest);
      FieldsRoundTrip(fields[1..], rest);
      assert [fields[0]] + fields[1..] == fields;
    }
  }

  lemma {:induction false} PaddedDigits(n: nat, w: nat)
    ensures forall c <- Padded(n, w) :: IsDigit(c)
    decreases w
  {
    if w > 0 {
      PaddedDigits(n / 10, w - 1);
    }
  }

  lemma {:induction false} PrintedNumbersNoSpace(values: seq<nat>, widths: seq<nat>, seps: string)
    requires |values| == |widths| == |seps| && ' ' !in seps
    ensures ' ' !in PrintNumbers(values, widths, seps)
    decreases |values|
  {
    if values != [] {
      PaddedDigits(values[0], widths[0]);
      PrintedNumbersNoSpace(values[1..], widths[1..], seps[1..]);
    }
  }

  /** The month counted from 0, the day, the hour, the minute and the second. */
  function Stamped3164(t: Tm): (r: seq<nat>) {
    [Clamp(t.mon, 0, 11), Clamp(t.mday, 1, 31)] + Fields3164(t)
  }

  /** No leap second, and a day that exists in its month. */
  predicate Exists5424(t: Tm) {
    t.sec < 60 && Clamp(t.mday, 1, 31) <= DaysIn(Clamp(t.year + 1900, 0, 9999), Clamp(t.mon, 0, 11) + 1)
  }

  predicate Exists3164(t: Tm) {
    t.sec < 60 && Clamp(t.mday, 1, 31) <= DaysIn(2000, Clamp(t.mon, 0, 11) + 1)
  }

  lemma FieldsInRange(t: Tm, ms: nat)
    ensures InRange5424(Fields5424(t, ms)) <==> Exists5424(t)
    ensures InRange3164(Stamped3164(t)) <==> Exists3164(t)
  {
  }

  lemma TotalWidth()
    ensures Total(WIDTHS_5424) == 24
  {
    assert WIDTHS_5424[1..] == [2, 2, 2, 2, 2, 3] && WIDTHS_5424[1..][1..] == [2, 2, 2, 2, 3];
    assert Total([3]) == 4 && [2, 3][1..] == [3] && Total([2, 3]) == 7;
    assert [2, 2, 3][1..] == [2, 3] && Total([2, 2, 3]) == 10;
    assert [2, 2, 2, 3][1..] == [2, 2, 3] && Total([2, 2, 2, 3]) == 13;
    assert [2, 2, 2, 2, 3][1..] == [2, 2, 2, 3] && Total([2, 2, 2, 2, 3]) == 16;
    assert [2, 2, 2, 2, 2, 3][1..] == [2, 2, 2, 2, 3] && Total([2, 2, 2, 2, 2, 3]) == 19;
  }

  /** A receiver reads the timestamp exactly when its time exists. */
  lemma StampRoundTrip(t: Tm, ms: nat)
    ensures ParseStamp5424(Stamp5424(t, ms)) == if Exists5424(t) then Some(Some(Fields5424(t, ms))) else None
    ensures ' ' !in Stamp5424(t, ms) && |Stamp5424(t, ms)| == 24
  {
    PrinterFollowsGrammar();
    NumbersRoundTrip(Fields5424(t, ms), WIDTHS_5424, SEPS_5424, "");
    assert Stamp5424(t, ms) + "" == Stamp5424(t, ms);
    PrintedNumbersNoSpace(Fields5424(t, ms), WIDTHS_5424, SEPS_5424);
    TotalWidth();
    FieldsInRange(t, ms);
  }

  /** The time a message carries exists, in UTC for RFC 5424 and in local time for RFC 3164. */
  predicate Readable(protocol: Protocol, time: Option<SyslogTime>) {
    time.None? || (if protocol == RFC5424 then Exists5424(time.value.utc) else Exists3164(time.value.local))
  }

  /** Year, month, day, hour, minute, second and milliseconds of the UTC time, in the order of the grammar. */
  function Time5424(time: Option<SyslogTime>): (r: Option<seq<nat>>) {
    if time.None? then None
    else
      var t := time.value.utc;
      Some([Clamp(t.year + 1900, 0, 9999), Clamp(t.mon, 0, 11) + 1, Clamp(t.mday, 1, 31), Clamp(t.hour, 0, 23),
            Clamp(t.min, 0, 59), Clamp(t.sec, 0, 60), Clamp(time.value.ms, 0, 999)])
  }

  lemma TimeIs(t: SyslogTime)
    ensures Time5424(Some(t)) == Some(Fields5424(t.utc, t.ms))
  {
  }

  /** NILVALUE for both: no process and no message id. */
  const NO_IDS: Option<(string, string)> := Some((['-'], ['-']))

  /** The end of a message after its last separator: the space is dropped with an empty text. */
  function Ending(sep: char, text: string): (r: string) {
    if text == "" then [sep] else [sep, ' '] + text
  }

  lemma FieldsNoSpace(host: string, tag: string, time: Option<SyslogTime>)
    requires Name(host, 63) && Name(tag, 48)
    ensures |Fields(host, tag, time)| == 6 && NoSpace(Fields(host, tag, time))
  {
    if time.Some? {
      StampRoundTrip(time.value.utc, time.value.ms);
    }
  }

  lemma TailRoundTrip(text: string)
    ensures Until(Ending('-', text), ' ') == (['-'], if text == "" then None else Some(text))
  {
    if text == "" {
      UntilNone(['-'], ' ');
    } else {
      UntilFirst(['-'], ' ', text);
      assert ['-'] + ([' '] + text) == ['-', ' '] + text;
    }
  }

  lemma Read5424Fields(pri: nat, host: string, tag: string, time: Option<SyslogTime>, text: string)
    requires Name(host, 63) && Name(tag, 48)
    ensures Read5424(pri, Fields(host, tag, time), Ending('-', text))
         == if Readable(RFC5424, time) then Some(Parsed(pri, Time5424(time), Some(host), tag, NO_IDS, text)) else None
  {
    TailRoundTrip(text);
    if time.Some? {
      TimeIs(time.value);
      StampRoundTrip(time.value.utc, time.value.ms);
      assert Stamp5424(time.value.utc, time.value.ms) != ['-'];
    }
  }

  /** A message of RFC 5424 is read back field by field, unless its time does not exist. */
  lemma Parse5424Reads(pri: nat, host: string, tag: string, time: Option<SyslogTime>, text: string)
    requires pri <= 191 && Name(host, 63) && Name(tag, 48)
    ensures Parse5424(PriText(pri) + (Spaced(Fields(host, tag, time)) + Ending('-', text)))
         == if Readable(RFC5424, time) then Some(Parsed(pri, Time5424(time), Some(host), tag, NO_IDS, text)) else None
  {
    var fields := Fields(host, tag, time);
    PriRoundTrip(pri, Spaced(fields) + Ending('-', text));
    FieldsNoSpace(host, tag, time);
    FieldsRoundTrip(fields, Ending('-', text));
    Read5424Fields(pri, host, tag, time, text);
  }

  lemma TokenName(s: string, max: nat, keep: char -> bool)
    requires max > 0 && forall c :: keep(c) ==> PrintUsAscii(c)
    ensures Name(Token(s, max, keep), max)
  {
  }

  lemma SpacedLength(a: string, b: string, c: string, d: string, e: string, f: string)
    ensures |Spaced([a, b, c, d, e, f])| == |a| + |b| + |c| + |d| + |e| + |f| + 6
  {
    assert [a, b, c, d, e, f][1..] == [b, c, d, e, f] && [b, c, d, e, f][1..] == [c, d, e, f];
    assert [c, d, e, f][1..] == [d, e, f] && [d, e, f][1..] == [e, f] && [e, f][1..] == [f];
    assert |Spaced([f])| == |f| + 1 && |Spaced([e, f])| == |e| + 1 + |Spaced([f])|;
    assert |Spaced([d, e, f])| == |d| + 1 + |Spaced([e, f])|;
    assert |Spaced([c, d, e, f])| == |c| + 1 + |Spaced([d, e, f])|;
    assert |Spaced([b, c, d, e, f])| == |b| + 1 + |Spaced([c, d, e, f])|;
  }

  // ----- RFC 3164 -----

  /** Month counted from 0, day, hour, minute and second of the local time, in the order of section 4.1.2. */
  function Time3164(time: Option<SyslogTime>): (r: Option<seq<nat>>) {
    if time.None? then None
    else
      var t := time.value.local;
      Some([Clamp(t.mon, 0, 11), Clamp(t.mday, 1, 31), Clamp(t.hour, 0, 23), Clamp(t.min, 0, 59), Clamp(t.sec, 0, 60)])
  }

  lemma StampedIs(t: SyslogTime)
    ensures Time3164(Some(t)) == Some(Stamped3164(t.local))
  {
    var day := [Clamp(t.local.mon, 0, 11), Clamp(t.local.mday, 1, 31)];
    var hms := [Clamp(t.local.hour, 0, 23), Clamp(t.local.min, 0, 59), Clamp(t.local.sec, 0, 60)];
    assert Fields3164(t.local) == hms && day + hms == day + Fields3164(t.local);
    assert day + hms == Time3164(Some(t)).value;
  }

  lemma MonthsDiffer(i: nat, j: nat)
    requires i < j < 12
    ensures MONTH_NAMES[i] != MONTH_NAMES[j]
  {
  }

  lemma {:induction false} MonthRoundTrip(m: nat, i: nat)
    requires i <= m < 12
    ensures MonthFrom(MONTH_NAMES[m], i) == Some(m)
    decreases m - i
  {
    if i < m {
      MonthsDiffer(i, m);
      MonthRoundTrip(m, i + 1);
    }
  }

  lemma MonthLetters(i: nat)
    requires i < 12
    ensures forall c <- MONTH_NAMES[i] :: Alphanumeric(c)
  {
  }

  lemma {:induction false} NoMonthHasColon(name: string, i: nat)
    requires i <= 12 && ':' in name
    ensures MonthFrom(name, i).None?
    decreases 12 - i
  {
    if i < 12 {
      MonthLetters(i);
      NoMonthHasColon(name, i + 1);
    }
  }

  /** Where the parts of "Mmm dd " and what follows are. */
  lemma StampLayout(month: string, day: string, tail: string)
    requires |month| == 3 && |day| == 2
    ensures var s := month + ([' '] + (day + ([' '] + tail)));
      && |s| >= 7 && s[..3] == month && s[3] == ' ' && s[4] == day[0] && s[5] == day[1] && s[6] == ' '
      && s[7..] == tail
  {
  }

  lemma DayReads(d: nat)
    requires 1 <= d <= 31
    ensures var s := Day(d);
      (s[0] == ' ' || '1' <= s[0] <= '3') && IsDigit(s[1]) && 10 * DigitOf(s[0]) + DigitOf(s[1]) == d
  {
  }

  lemma Regroup4(month: string, day: string, hms: string, rest: string)
    ensures (month + ([' '] + (day + ([' '] + hms)))) + rest == month + ([' '] + (day + ([' '] + (hms + rest))))
  {
  }

  lemma Stamp3164RoundTrip(t: Tm, rest: string)
    ensures ParseStamp3164(Stamp3164(t) + rest) == if Exists3164(t) then Some((Stamped3164(t), rest)) else None
  {
    var month, day := MONTHS[Clamp(t.mon, 0, 11)], Day(Clamp(t.mday, 1, 31));
    var hms := PrintNumbers(Fields3164(t), WIDTHS_3164, SEPS_3164);
    Regroup4(month, day, hms, rest);
    StampLayout(month, day, hms + rest);
    PrinterFollowsGrammar();
    NumbersRoundTrip(Fields3164(t), WIDTHS_3164, SEPS_3164, rest);
    MonthRoundTrip(Clamp(t.mon, 0, 11), 0);
    DayReads(Clamp(t.mday, 1, 31));
    FieldsInRange(t, 0);
  }

  /** A character that is not alphanumeric ends the TAG. */
  lemma {:induction false} PrefixEnds(front: string, back: string)
    requires back != "" && !Alphanumeric(back[0])
    ensures AlnumPrefix(front + back) == AlnumPrefix(front)
    decreases |front|
  {
    if front == "" {
      assert front + back == back;
    } else {
      assert (front + back)[1..] == front[1..] + back;
      PrefixEnds(front[1..], back);
    }
  }

  lemma {:induction false} WholePrefix(s: string)
    ensures AlnumPrefix(s) == s <==> forall c <- s :: Alphanumeric(c)
    decreases |s|
  {
    if s != "" {
      WholePrefix(s[1..]);
      assert s == [s[0]] + s[1..];
    }
  }

  predicate TagName(s: string, max: nat) {
    1 <= |s| <= max && forall c <- s :: TagChar(c)
  }

  /** The CONTENT after a tag: its characters from the first that is not alphanumeric, the colon and the text. */
  function Content(tag: string, text: string): (r: string) {
    tag[|AlnumPrefix(tag)|..] + Ending(':', text)
  }

  lemma Dropped(a: string, b: string, n: nat)
    requires n <= |a|
    ensures (a + b)[n..] == a[n..] + b
  {
  }

  lemma TagReads(tag: string, text: string)
    requires TagName(tag, 32)
    ensures ParseTag(tag + Ending(':', text)) == Some((AlnumPrefix(tag), Content(tag, text)))
  {
    PrefixEnds(tag, Ending(':', text));
    Dropped(tag, Ending(':', text), |AlnumPrefix(tag)|);
  }

  lemma Nested2(a: string, b: string, e: string)
    ensures a + (b + e) == (a + b) + e
  {
  }

  /** What follows the month in a timestamp. */
  function AfterMonth(t: Tm): (r: string) {
    [' '] + (Day(Clamp(t.mday, 1, 31)) + ([' '] + PrintNumbers(Fields3164(t), WIDTHS_3164, SEPS_3164)))
  }

  /** A timestamp read as a message: its month is the TAG. */
  lemma StampAsTag(t: Tm, rest: string)
    ensures ParseTag(Stamp3164(t) + rest) == Some((MONTHS[Clamp(t.mon, 0, 11)], AfterMonth(t) + rest))
  {
    var month := MONTHS[Clamp(t.mon, 0, 11)];
    PrinterFollowsGrammar();
    MonthLetters(Clamp(t.mon, 0, 11));
    WholePrefix(month);
    PrefixEnds(month, AfterMonth(t) + rest);
    Nested2(month, AfterMonth(t), rest);
  }

  lemma NoSpaceInTag(tag: string, text: string, i: nat)
    requires TagName(tag, 32) && i < |tag|
    ensures (tag + Ending(':', text))[i] != ' '
  {
    assert tag[i] in tag;
  }

  /** Without a timestamp a tag cannot be taken for one: the colon ends it before any space. */
  lemma NoStampBeforeTag(tag: string, text: string)
    requires TagName(tag, 32)
    ensures ParseStamp3164(tag + Ending(':', text)).None?
  {
    var s := tag + Ending(':', text);
    assert s[|tag|] == ':';
    if |tag| > 3 {
      NoSpaceInTag(tag, text, 3);
    } else if |tag| < 3 && |s| >= 7 {
      assert s[..3][|tag|] == ':';
      NoMonthHasColon(s[..3], 0);
    }
  }

  /** What a receiver of RFC 3164 reads: a time that does not exist makes everything after the PRI the MSG. */
  function Read3164(pri: nat, host: string, tag: string, time: Option<SyslogTime>, text: string): (r: Parsed) {
    if time.None? then Parsed(pri, None, None, AlnumPrefix(tag), None, Content(tag, text))
    else if Exists3164(time.value.local) then
      Parsed(pri, Time3164(time), Some(host), AlnumPrefix(tag), None, Content(tag, text))
    else
      Parsed(pri, None, None, MONTHS[Clamp(time.value.local.mon, 0, 11)], None,
             AfterMonth(time.value.local) + (host + ([' '] + (tag + Ending(':', text)))))
  }

  lemma Parse3164ReadsStamped(pri: nat, host: string, tag: string, t: SyslogTime, text: string)
    requires pri <= 191 && Name(host, 63) && TagName(tag, 32)
    ensures Parse3164(PriText(pri) + (Stamp3164(t.local) + (host + ([' '] + (tag + Ending(':', text))))))
         == Some(Read3164(pri, host, tag, Some(t), text))
  {
    var rest := host + ([' '] + (tag + Ending(':', text)));
    PriRoundTrip(pri, Stamp3164(t.local) + rest);
    Stamp3164RoundTrip(t.local, rest);
    StampAsTag(t.local, rest);
    UntilFirst(host, ' ', tag + Ending(':', text));
    TagReads(tag, text);
    StampedIs(t);
  }

  /** A message of RFC 3164 that leaves the time to the relay. */
  lemma Parse3164ReadsUnstamped(pri: nat, host: string, tag: string, text: string)
    requires pri <= 191 && TagName(tag, 32)
    ensures Parse3164(PriText(pri) + (tag + Ending(':', text))) == Some(Read3164(pri, host, tag, None, text))
  {
    PriRoundTrip(pri, tag + Ending(':', text));
    NoStampBeforeTag(tag, text);
    TagReads(tag, text);
  }

  // ----- The whole message -----

  /** What follows the header's last space: nothing, not even that space, when there is no text. */
  function Join(protocol: Protocol, pri: nat, host: string, tag: string, time: Option<SyslogTime>, text: string):
    (r: string)
  {
    match protocol
    case RFC5424 => PriText(pri) + (Spaced(Fields(host, tag, time)) + Ending('-', text))
    case RFC3164 =>
      if time.Some? then PriText(pri) + (Stamp3164(time.value.local) + (host + ([' '] + (tag + Ending(':', text)))))
      else PriText(pri) + (tag + Ending(':', text))
  }

  lemma FormattedEnds(front: string, sep: char, text: string)
    ensures Formatted(front + [sep, ' '], text) == front + Ending(sep, text)
  {
    var h := front + [sep, ' '];
    assert h[|h| - 1] == ' ' && h[..|h| - 1] == front + [sep];
    Nested2(front, [sep, ' '], text);
  }

  /** The last two characters of a header and the text. */
  lemma FormatEnds(cap: nat, front: string, sep: char, msg: Option<string>)
    requires var h := front + [sep, ' ']; |h| < cap
    ensures var h := front + [sep, ' '];
      Format(cap, h, msg) == front + Ending(sep, Message(msg, cap - 1 - |h|))
  {
    FormattedEnds(front, sep, Message(msg, cap - 1 - |front + [sep, ' ']|));
  }

  lemma Nested4(a: string, b: string, c: string, d: string, e: string)
    ensures a + (b + (c + ([' '] + (d + e)))) == (a + (b + (c + ([' '] + d)))) + e
  {
  }

  lemma JoinPlain(cap: nat, a: string, b: string, sep: char, msg: Option<string>)
    requires var h := a + (b + [sep, ' ']); |h| < cap
    ensures var h := a + (b + [sep, ' ']);
      Format(cap, h, msg) == a + (b + Ending(sep, Message(msg, cap - 1 - |h|)))
  {
    Nested2(a, b, [sep, ' ']);
    FormatEnds(cap, a + b, sep, msg);
    Nested2(a, b, Ending(sep, Message(msg, cap - 1 - |a + (b + [sep, ' '])|)));
  }

  lemma JoinStamped(cap: nat, a: string, b: string, c: string, d: string, msg: Option<string>)
    requires var h := a + (b + (c + ([' '] + (d + [':', ' '])))); |h| < cap
    ensures var h := a + (b + (c + ([' '] + (d + [':', ' ']))));
      Format(cap, h, msg) == a + (b + (c + ([' '] + (d + Ending(':', Message(msg, cap - 1 - |h|))))))
  {
    Nested4(a, b, c, d, [':', ' ']);
    FormatEnds(cap, a + (b + (c + ([' '] + d))), ':', msg);
    Nested4(a, b, c, d, Ending(':', Message(msg, cap - 1 - |a + (b + (c + ([' '] + (d + [':', ' ']))))|)));
  }

  lemma FormatIsJoin(cap: nat, protocol: Protocol, pri: nat, host: string, tag: string, time: Option<SyslogTime>,
                     msg: Option<string>)
    requires var h := HeaderOf(protocol, pri, host, tag, time); |h| < cap
    ensures var h := HeaderOf(protocol, pri, host, tag, time);
      Format(cap, h, msg) == Join(protocol, pri, host, tag, time, Message(msg, cap - 1 - |h|))
  {
    if protocol == RFC5424 {
      JoinPlain(cap, PriText(pri), Spaced(Fields(host, tag, time)), '-', msg);
    } else if time.Some? {
      JoinStamped(cap, PriText(pri), Stamp3164(time.value.local), host, tag, msg);
    } else {
      JoinPlain(cap, PriText(pri), tag, ':', msg);
    }
  }

  /** Every header fits: at most 151 characters, for any input. */
  lemma HeaderFits(protocol: Protocol, facility: nat, severity: nat, hostname: Option<string>, app: Option<string>,
                   time: Option<SyslogTime>)
    ensures |Header(protocol, Pri(facility, severity), hostname, app, time)| <= 151
  {
    var pri, host, tag := Pri(facility, severity), Host(hostname), Tag(protocol, app);
    DecimalOfPri(pri);
    if protocol == RFC5424 {
      if time.Some? {
        StampRoundTrip(time.value.utc, time.value.ms);
      }
      var f := Fields(host, tag, time);
      SpacedLength(f[0], f[1], f[2], f[3], f[4], f[5]);
      assert f == [f[0], f[1], f[2], f[3], f[4], f[5]];
    }
  }

  function Parse(protocol: Protocol, s: string): (r: Option<Parsed>) {
    if protocol == RFC5424 then Parse5424(s) else Parse3164(s)
  }

  /** The time and the host a receiver gets to see. */
  function TimeOf(protocol: Protocol, time: Option<SyslogTime>): (r: Option<seq<nat>>) {
    if protocol == RFC5424 then Time5424(time) else Time3164(time)
  }

  function HostOf(protocol: Protocol, hostname: Option<string>, time: Option<SyslogTime>): (r: Option<string>) {
    if protocol == RFC5424 || time.Some? then Some(Host(hostname)) else None
  }

  /** What a receiver reads of a formatted message; one of RFC 5424 refuses a time that does not exist. */
  function Received(protocol: Protocol, pri: nat, hostname: Option<string>, app: Option<string>,
                    time: Option<SyslogTime>, text: string): (r: Option<Parsed>)
  {
    var host, tag := Host(hostname), Tag(protocol, app);
    match protocol
    case RFC3164 => Some(Read3164(pri, host, tag, time, text))
    case RFC5424 =>
      if Readable(RFC5424, time) then Some(Parsed(pri, Time5424(time), Some(host), tag, NO_IDS, text)) else None
  }

  /** The CONTENT of RFC 3164 begins with the colon that ends the TAG. */
  function Shown(protocol: Protocol, text: string): (r: string) {
    if protocol == RFC5424 then text else Ending(':', text)
  }

  /** The message with all its fields, as it was meant. */
  function Meant(protocol: Protocol, pri: nat, hostname: Option<string>, app: Option<string>,
                 time: Option<SyslogTime>, text: string): (r: Parsed)
  {
    Parsed(pri, TimeOf(protocol, time), HostOf(protocol, hostname, time), Tag(protocol, app),
           if protocol == RFC5424 then NO_IDS else None, Shown(protocol, text))
  }

  /** The time exists, and RFC 3164 takes all of the tag. */
  predicate Faithful(protocol: Protocol, app: Option<string>, time: Option<SyslogTime>) {
    Readable(protocol, time) && (protocol == RFC3164 ==> forall c <- Tag(RFC3164, app) :: Alphanumeric(c))
  }

  lemma TagAsMeant(tag: string, text: string)
    ensures AlnumPrefix(tag) == tag <==> forall c <- tag :: Alphanumeric(c)
    ensures AlnumPrefix(tag) == tag ==> Content(tag, text) == Ending(':', text)
  {
    WholePrefix(tag);
    if AlnumPrefix(tag) == tag {
      assert tag[|tag|..] + Ending(':', text) == Ending(':', text);
    }
  }

  lemma ReceivedAsMeant(protocol: Protocol, pri: nat, hostname: Option<string>, app: Option<string>,
                        time: Option<SyslogTime>, text: string)
    ensures (Received(protocol, pri, hostname, app, time, text)
             == Some(Meant(protocol, pri, hostname, app, time, text))) <==> Faithful(protocol, app, time)
  {
    TagAsMeant(Tag(RFC3164, app), text);
  }

  lemma JoinReads(protocol: Protocol, pri: nat, hostname: Option<string>, app: Option<string>,
                  time: Option<SyslogTime>, text: string)
    requires pri <= 191
    ensures Parse(protocol, Join(protocol, pri, Host(hostname), Tag(protocol, app), time, text))
         == Received(protocol, pri, hostname, app, time, text)
  {
    var host, tag := Host(hostname), Tag(protocol, app);
    TokenName(Text(hostname), 63, PrintUsAscii);
    match protocol {
      case RFC5424 =>
        TokenName(Text(app), 48, PrintUsAscii);
        Parse5424Reads(pri, host, tag, time, text);
      case RFC3164 =>
        if time.Some? {
          Parse3164ReadsStamped(pri, host, tag, time.value, text);
        } else {
          Parse3164ReadsUnstamped(pri, host, tag, text);
        }
    }
  }

  /** The facility and the severity as a receiver takes them out of PRI; unknown codes are user and informational. */
  lemma PriIs(facility: nat, severity: nat)
    ensures Pri(facility, severity) / 8 == if facility <= 23 then facility else 1
    ensures Pri(facility, severity) % 8 == if severity <= 7 then severity else 6
  {
  }

  lemma ParseUndoesWhole(cap: nat, protocol: Protocol, facility: nat, severity: nat, hostname: Option<string>,
                         app: Option<string>, msg: Option<string>, time: Option<SyslogTime>)
    requires |Header(protocol, Pri(facility, severity), hostname, app, time)| < cap
    ensures var pri := Pri(facility, severity); var h := Header(protocol, pri, hostname, app, time);
      Parse(protocol, Format(cap, h, msg)) == Received(protocol, pri, hostname, app, time, Message(msg, cap - 1 - |h|))
  {
    var pri := Pri(facility, severity);
    var h := Header(protocol, pri, hostname, app, time);
    var text := Message(msg, cap - 1 - |h|);
    var joined := Join(protocol, pri, Host(hostname), Tag(protocol, app), time, text);
    assert Format(cap, h, msg) == joined by {
      FormatIsJoin(cap, protocol, pri, Host(hostname), Tag(protocol, app), time, msg);
    }
    assert Parse(protocol, joined) == Received(protocol, pri, hostname, app, time, text) by {
      JoinReads(protocol, pri, hostname, app, time, text);
    }
  }

  /**
   Formatting then parsing, for every facility, severity, host, application, time and message, at any
   capacity the header fits in (152 always does): exactly what is read, and that it is the PRI, the clamped
   time fields, the filtered host and tag, and the message blanked, cut to the room left and without its
   trailing blanks, if and only if the time exists (its second is below 60 and its month has the day) and,
   for RFC 3164, the filtered tag has no '-' and '_'. Whenever something is read its priority is made of the
   facility and the severity. At a smaller capacity nothing is printed.
   */
  lemma ParseUndoesFormat(cap: nat, protocol: Protocol, facility: nat, severity: nat, hostname: Option<string>,
                          app: Option<string>, msg: Option<string>, time: Option<SyslogTime>)
    ensures var pri := Pri(facility, severity); var h := Header(protocol, pri, hostname, app, time);
      && |h| <= 151
      && (|h| < cap ==>
            var text := Message(msg, cap - 1 - |h|); var read := Parse(protocol, Format(cap, h, msg));
            && read == Received(protocol, pri, hostname, app, time, text)
            && (read == Some(Meant(protocol, pri, hostname, app, time, text)) <==> Faithful(protocol, app, time))
            && (read.Some? ==>
                  && read.value.pri / 8 == (if facility <= 23 then facility else 1)
                  && read.value.pri % 8 == (if severity <= 7 then severity else 6)))
      && (|h| >= cap ==> Format(cap, h, msg) == "" && Parse(protocol, Format(cap, h, msg)).None?)
  {
    HeaderFits(protocol, facility, severity, hostname, app, time);
    var h := Header(protocol, Pri(facility, severity), hostname, app, time);
    if |h| < cap {
      ParseUndoesWhole(cap, protocol, facility, severity, hostname, app, msg, time);
      PriIs(facility, severity);
      ReceivedAsMeant(protocol, Pri(facility, severity), hostname, app, time, Message(msg, cap - 1 - |h|));
    }
  }

  // ----- The tag of the firmware, and leap seconds -----

  const APP_NAME: string := "esp32-nut"

  lemma {:induction false} AllKept(s: string, keep: char -> bool)
    requires forall c <- s :: keep(c) && c != '\0'
    ensures Filter(CStr(s), keep) == s
    decreases |s|
  {
    if s != "" {
      assert s[0] in s && s == [s[0]] + s[1..];
      AllKept(s[1..], keep);
      assert CStr(s)[1..] == CStr(s[1..]);
    }
  }

  lemma WholeToken(s: string, max: nat, keep: char -> bool)
    requires 1 <= |s| <= max && forall c <- s :: keep(c) && c != '\0'
    ensures Token(s, max, keep) == s
  {
    AllKept(s, keep);
  }

  lemma AppTag()
    ensures Tag(RFC3164, Some(APP_NAME)) == APP_NAME
  {
    WholeToken(APP_NAME, 32, TagChar);
  }

  lemma AppPrefix()
    ensures AlnumPrefix(APP_NAME) == APP_NAME[..5] && APP_NAME[..5] == "esp32" && APP_NAME[5..] == "-nut"
  {
    WholePrefix(APP_NAME[..5]);
    PrefixEnds(APP_NAME[..5], APP_NAME[5..]);
    assert APP_NAME[..5] + APP_NAME[5..] == APP_NAME;
  }

  /** What RFC 3164 reads when the time exists or is left out. */
  lemma TagIsSplit(cap: nat, facility: nat, severity: nat, hostname: Option<string>, app: Option<string>,
                   msg: Option<string>, time: Option<SyslogTime>)
    requires cap >= 152 && Readable(RFC3164, time)
    ensures var pri := Pri(facility, severity); var h := Header(RFC3164, pri, hostname, app, time);
      var tag := Tag(RFC3164, app);
      && |h| < cap
      && Parse(RFC3164, Format(cap, h, msg)) ==
           Some(Parsed(pri, Time3164(time), HostOf(RFC3164, hostname, time), AlnumPrefix(tag), None,
                       Content(tag, Message(msg, cap - 1 - |h|))))
  {
    ParseUndoesFormat(cap, RFC3164, facility, severity, hostname, app, msg, time);
  }

  /** The only name the firmware gives itself has a '-': every message of RFC 3164 is read as from "esp32". */
  lemma AppNameIsSplit(cap: nat, facility: nat, severity: nat, hostname: Option<string>, msg: Option<string>,
                       time: Option<SyslogTime>)
    requires cap >= 152 && Readable(RFC3164, time)
    ensures var pri := Pri(facility, severity); var h := Header(RFC3164, pri, hostname, Some(APP_NAME), time);
      && |h| < cap
      && Parse(RFC3164, Format(cap, h, msg)) ==
           Some(Parsed(pri, Time3164(time), HostOf(RFC3164, hostname, time), "esp32", None,
                       "-nut" + Ending(':', Message(msg, cap - 1 - |h|))))
  {
    TagIsSplit(cap, facility, severity, hostname, Some(APP_NAME), msg, time);
    AppTag();
    AppPrefix();
  }

  /** The last second of 2016, a leap second, as a struct tm may hold it. */
  const LEAP_SECOND: Tm := Tm(116, 11, 31, 23, 59, 60)

  lemma NeverEmpty(cap: nat, protocol: Protocol, facility: nat, severity: nat, hostname: Option<string>,
                   app: Option<string>, msg: Option<string>, time: Option<SyslogTime>)
    requires |Header(protocol, Pri(facility, severity), hostname, app, time)| < cap
    ensures Format(cap, Header(protocol, Pri(facility, severity), hostname, app, time), msg) != ""
  {
    var pri := Pri(facility, severity);
    var h := Header(protocol, pri, hostname, app, time);
    FormatIsJoin(cap, protocol, pri, Host(hostname), Tag(protocol, app), time, msg);
    assert PriText(pri) != "";
  }

  lemma MissingTimeIsNotRead(cap: nat, facility: nat, severity: nat, hostname: Option<string>, app: Option<string>,
                             msg: Option<string>, time: SyslogTime)
    requires cap >= 152 && !Exists5424(time.utc)
    ensures var h := Header(RFC5424, Pri(facility, severity), hostname, app, Some(time));
      Format(cap, h, msg) != "" && Parse(RFC5424, Format(cap, h, msg)).None?
  {
    ParseUndoesFormat(cap, RFC5424, facility, severity, hostname, app, msg, Some(time));
    NeverEmpty(cap, RFC5424, facility, severity, hostname, app, msg, Some(time));
  }

  lemma MissingTimeIsMessage(cap: nat, facility: nat, severity: nat, hostname: Option<string>, app: Option<string>,
                             msg: Option<string>, time: SyslogTime)
    requires cap >= 152 && !Exists3164(time.local)
    ensures var read := Parse(RFC3164, Format(cap, Header(RFC3164, Pri(facility, severity), hostname, app, Some(time)),
                                              msg));
      && read.Some? && read.value.time.None? && read.value.host.None?
      && read.value.app == MONTHS[Clamp(time.local.mon, 0, 11)]
  {
    ParseUndoesFormat(cap, RFC3164, facility, severity, hostname, app, msg, Some(time));
  }

  /**
   At a leap second the second 60 is printed, which neither grammar has: RFC 5424 refuses every line, and
   RFC 3164 sees a message without time and host whose tag is the month.
   */
  lemma LeapSecondIsNotRead(cap: nat, facility: nat, severity: nat, hostname: Option<string>, app: Option<string>,
                            msg: Option<string>, ms: nat)
    requires cap >= 152
    ensures var h := Header(RFC5424, Pri(facility, severity), hostname, app,
                            Some(SyslogTime(LEAP_SECOND, LEAP_SECOND, ms)));
      Format(cap, h, msg) != "" && Parse(RFC5424, Format(cap, h, msg)).None?
    ensures var h := Header(RFC3164, Pri(facility, severity), hostname, app,
                            Some(SyslogTime(LEAP_SECOND, LEAP_SECOND, ms)));
      var read := Parse(RFC3164, Format(cap, h, msg));
      read.Some? && read.value.time.None? && read.value.host.None? && read.value.app == "Dec"
    ensures Fields5424(LEAP_SECOND, ms)[..6] == [2016, 12, 31, 23, 59, 60]
  {
    var time := SyslogTime(LEAP_SECOND, LEAP_SECOND, ms);
    MissingTimeIsNotRead(cap, facility, severity, hostname, app, msg, time);
    MissingTimeIsMessage(cap, facility, severity, hostname, app, msg, time);
  }

  lemma NotCut(msg: Option<string>, room: nat)
    requires |Text(msg)| <= room
    ensures Message(msg, room) == TrimRight(Blanked(CStr(Text(msg))))
  {
    assert |Blanked(CStr(Text(msg)))| <= room;
  }

  lemma WholeAfter(cap: nat, h: string, msg: Option<string>, text: string)
    requires |h| <= 151 && |Text(msg)| + 152 <= cap && text == TrimRight(Blanked(CStr(Text(msg))))
    ensures |h| < cap && Message(msg, cap - 1 - |h|) == text
  {
    NotCut(msg, cap - 1 - |h|);
  }

  /**
   A message that leaves 152 characters of the buffer is not cut by any header: all of its text is read. Lines of
   the log queue have at most 239 characters, and the output's buffer has 480.
   */
  lemma ShortMessageIsReadWhole(cap: nat, protocol: Protocol, facility: nat, severity: nat, hostname: Option<string>,
                                app: Option<string>, msg: Option<string>, time: Option<SyslogTime>)
    requires |Text(msg)| + 152 <= cap
    ensures var pri := Pri(facility, severity); var h := Header(protocol, pri, hostname, app, time);
      Parse(protocol, Format(cap, h, msg))
        == Received(protocol, pri, hostname, app, time, TrimRight(Blanked(CStr(Text(msg)))))
  {
    var text := TrimRight(Blanked(CStr(Text(msg))));
    HeaderFits(protocol, facility, severity, hostname, app, time);
    WholeAfter(cap, Header(protocol, Pri(facility, severity), hostname, app, time), msg, text);
    ParseUndoesWhole(cap, protocol, facility, severity, hostname, app, msg, time);
  }

  // ----- The printer in place -----

  /** snprintf(out, cap, "%s", s): what fits, ended by a NUL; the length it would have taken. */
  method Snprintf(out: array<char>, s: string) returns (n: nat)
    requires out.Length > 0
    modifies out
    ensures n == |s|
    ensures n < out.Length ==> out[..n] == s && out[n] == '\0'
    ensures n >= out.Length ==> out[..] == s[..out.Length - 1] + ['\0']
  {
    n := |s|;
    var i := 0;
    while i < n && i + 1 < out.Length
      invariant 0 <= i <= Min(n, out.Length - 1) && out[..i] == s[..i]
    {
      out[i] := s[i];
      i := i + 1;
    }
    assert i == n ==> s[..i] == s;
    out[i] := '\0';
    assert i == out.Length - 1 ==> out[..] == out[..i] + ['\0'];
  }

  /** The host and the tag, through their buffers. */
  method CopyTokens(protocol: Protocol, hostname: Option<string>, app: Option<string>)
    returns (host: string, tag: string)
    ensures host == Host(hostname) && tag == Tag(protocol, app)
  {
    var hostBuffer, tagBuffer := new char[64], new char[49];
    var n := CopyToken(hostBuffer, hostname, 63, PrintUsAscii);
    host := hostBuffer[..n];
    if protocol == RFC5424 {
      n := CopyToken(tagBuffer, app, 48, PrintUsAscii);
    } else {
      n := CopyToken(tagBuffer, app, 32, TagChar);
    }
    tag := tagBuffer[..n];
  }

  /** The codes in their ranges and the tokens, as snprintf() puts them together. */
  method HeaderText(protocol: Protocol, facility: nat, severity: nat, hostname: Option<string>, app: Option<string>,
                    time: Option<SyslogTime>) returns (header: string)
    ensures header == Header(protocol, Pri(facility, severity), hostname, app, time)
  {
    var f, s := facility, severity;
    if f > 23 {
      f := 1;
    }
    if s > 7 {
      s := 6;
    }
    var host, tag := CopyTokens(protocol, hostname, app);
    var pri := f * 8 + s;
    assert pri == Pri(facility, severity);
    header := HeaderOf(protocol, pri, host, tag, time);
  }

  /** The fields of the header in their ranges, its tokens, and the snprintf() of the protocol. */
  method PutHeader(out: array<char>, protocol: Protocol, facility: nat, severity: nat, hostname: Option<string>,
                   app: Option<string>, time: Option<SyslogTime>) returns (n: nat)
    requires out.Length > 0
    modifies out
    ensures var h := Header(protocol, Pri(facility, severity), hostname, app, time);
      n == |h| && (n < out.Length ==> out[..n] == h)
  {
    var header := HeaderText(protocol, facility, severity, hostname, app, time);
    n := Snprintf(out, header);
  }

  lemma NextChar(h: string, text: string, p: nat)
    requires p < |text|
    ensures h + text[..p + 1] == (h + text[..p]) + [text[p]]
  {
  }

  /** The blanked text goes on exactly up to the first NUL. */
  lemma TextAt(s: string, p: nat)
    requires p <= |Blanked(CStr(s))|
    ensures p < |Blanked(CStr(s))| <==> p < |s| && s[p] != '\0'
    ensures p < |Blanked(CStr(s))| ==> Blanked(CStr(s))[p] == Blank(s[p])
  {
    CStrAt(s, p);
  }

  lemma CutAt(text: string, p: nat, room: nat)
    requires p <= |text| && p <= room && (p == |text| || p == room)
    ensures text[..p] == Cut(text, room)
  {
  }

  /** The message loop. */
  method CopyMessage(out: array<char>, header: nat, msg: Option<string>) returns (n: nat)
    requires header < out.Length
    modifies out
    ensures header <= n < out.Length
    ensures out[..n] == old(out[..header]) + Cut(Blanked(CStr(Text(msg))), out.Length - 1 - header)
  {
    n := header;
    ghost var h, text := out[..header], Blanked(CStr(Text(msg)));
    if msg.Some? {
      var p := 0;
      TextAt(msg.value, 0);
      while p < |msg.value| && msg.value[p] != '\0' && n + 1 < out.Length
        invariant p <= |text| && n == header + p < out.Length
        invariant p < |text| <==> p < |msg.value| && msg.value[p] != '\0'
        invariant out[..n] == h + text[..p]
      {
        TextAt(msg.value, p);
        NextChar(h, text, p);
        Put(out, n, Blank(msg.value[p]));
        n := n + 1;
        p := p + 1;
        TextAt(msg.value, p);
      }
      CutAt(text, p, out.Length - 1 - header);
    }
  }

  lemma Parts(whole: string, front: string, back: string)
    requires whole == front + back
    ensures whole[..|front|] == front && whole[|front|..] == back
  {
  }

  /** The trailing blanks off. */
  method TrimBlanks(out: array<char>, header: nat, end: nat) returns (n: nat)
    requires header <= end < out.Length
    ensures header <= n <= end && out[..n] == out[..header] + TrimRight(out[header..end])
  {
    n := end;
    ghost var text, trimmed := out[header..end], TrimRight(out[header..end]);
    while n > header && out[n - 1] == ' '
      invariant header <= n <= end && out[header..n] == text && TrimRight(text) == trimmed
    {
      assert text[|text| - 1] == out[n - 1];
      text := text[..|text| - 1];
      n := n - 1;
      assert out[header..n] == text;
    }
    assert text == "" || text[|text| - 1] == out[n - 1];
    assert out[..n] == out[..header] + out[header..n];
  }

  /** The message and its trailing blanks off. */
  method CopyTrimmed(out: array<char>, header: nat, msg: Option<string>) returns (n: nat)
    requires header < out.Length
    modifies out
    ensures header <= n < out.Length
    ensures out[..n] == old(out[..header]) + Message(msg, out.Length - 1 - header)
  {
    ghost var h := out[..header];
    n := CopyMessage(out, header, msg);
    ghost var full := Cut(Blanked(CStr(Text(msg))), out.Length - 1 - header);
    assert out[..header] == h && out[header..n] == full by {
      Parts(out[..n], h, full);
      assert out[..header] == out[..n][..header] && out[header..n] == out[..n][header..];
    }
    n := TrimBlanks(out, header, n);
  }

  function Ended(whole: string, header: nat): (r: string) {
    if |whole| == header && header > 0 && whole[|whole| - 1] == ' ' then whole[..|whole| - 1] else whole
  }

  lemma FormatOf(cap: nat, h: string, msg: Option<string>, whole: string)
    requires |h| < cap && whole == h + Message(msg, cap - 1 - |h|)
    ensures Format(cap, h, msg) == Ended(whole, |h|)
  {
    if |whole| == |h| {
      assert whole == h;
    }
  }

  /** A header without text loses its last space; the NUL. */
  method Terminate(out: array<char>, header: nat, end: nat) returns (n: nat)
    requires header <= end < out.Length
    modifies out
    ensures n <= end && out[n] == '\0'
    ensures out[..n] == Ended(old(out[..end]), header)
  {
    n := end;
    ghost var whole := out[..end];
    if n == header && n > 0 && out[n - 1] == ' ' {
      n := n - 1;
    }
    out[n] := '\0';
    assert out[..n] == whole[..n];
  }

  /** What follows the header. */
  method PutMessage(out: array<char>, header: nat, msg: Option<string>) returns (n: nat)
    requires header < out.Length
    modifies out
    ensures n < out.Length && out[n] == '\0'
    ensures out[..n] == Format(out.Length, old(out[..header]), msg)
  {
    ghost var h := out[..header];
    ghost var formatted := Format(out.Length, h, msg);
    n := CopyTrimmed(out, header, msg);
    assert formatted == Ended(out[..n], header) by {
      FormatOf(out.Length, h, msg, out[..n]);
    }
    n := Terminate(out, header, n);
    assert out[..n] == formatted;
  }

  method FormatSyslogSeverity(out: array?<char>, protocol: Protocol, facility: nat, severity: nat,
                              hostname: Option<string>, app: Option<string>, msg: Option<string>,
                              time: Option<SyslogTime>) returns (n: nat)
    modifies out
    ensures out == null || out.Length == 0 ==> n == 0
    ensures out != null && out.Length > 0 ==>
      (n < out.Length && out[n] == '\0' &&
       out[..n] == Format(out.Length, Header(protocol, Pri(facility, severity), hostname, app, time), msg))
  {
    if out == null || out.Length == 0 {
      return 0;
    }
    out[0] := '\0';
    var header := PutHeader(out, protocol, facility, severity, hostname, app, time);
    if header >= out.Length {
      out[0] := '\0';
      return 0;
    }
    n := PutMessage(out, header, msg);
  }
}
