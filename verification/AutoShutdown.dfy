/**
 The automatic shutdown (include/core/auto_shutdown.h, checkAutoShutdown() in src/core/main.cpp): one
 shutdown.default for each time the UPS runs low on battery, until it is back on line.
 */
module AutoShutdown {
  import opened Prelude

  datatype CommandResult = Done | NotSupported | NotConnected | Failed | BadArgument

  // ----- Words of ups.status -----

  /** s[i..j] is a whole word: no space in it, and a space or the end of s on each side. */
  predicate WordAt(s: string, i: int, j: int) {
    && 0 <= i < j <= |s| && ' ' !in s[i..j]
    && (i == 0 || s[i - 1] == ' ') && (j == |s| || s[j] == ' ')
  }

  /** The text holds the token as a whole word. */
  ghost predicate Holds(s: string, token: string) {
    exists i, j :: WordAt(s, i, j) && s[i..j] == token
  }

  function Text(s: Option<string>): (r: string) {
    if s.Some? then CStr(s.value) else ""
  }

  /** No word that ends at p or before is the token. */
  ghost predicate NoneUpTo(s: string, token: string, p: nat) {
    forall i, j :: WordAt(s, i, j) && j <= p ==> s[i..j] != token
  }

  predicate AtBoundary(s: string, p: nat) {
    p <= |s| && (p == 0 || p == |s| || s[p] == ' ')
  }

  lemma WordEnds(s: string, i: int, j: int)
    requires WordAt(s, i, j)
    ensures (i > 0 ==> s[i - 1] == ' ') && (j < |s| ==> s[j] == ' ') && s[j - 1] != ' '
    ensures forall k :: i <= k < j ==> s[k] != ' '
  {
    forall k | i <= k < j ensures s[k] != ' ' {
      assert s[i..j][k - i] == s[k];
    }
  }

  /** Skipping spaces passes no word. */
  lemma NoWordInSpaces(s: string, token: string, from: nat, to: nat)
    requires from <= to <= |s| && NoneUpTo(s, token, from) && forall k :: from <= k < to ==> s[k] == ' '
    ensures NoneUpTo(s, token, to)
  {
    forall i, j | WordAt(s, i, j) && j <= to ensures s[i..j] != token {
      WordEnds(s, i, j);
    }
  }

  /** Between two spaces there is one word. */
  lemma OneWord(s: string, token: string, start: nat, end: nat)
    requires start <= end <= |s| && NoneUpTo(s, token, start) && s[start..end] != token
    requires start == 0 || s[start - 1] == ' '
    requires forall k :: start <= k < end ==> s[k] != ' '
    ensures NoneUpTo(s, token, end)
  {
    forall i, j | WordAt(s, i, j) && j <= end ensures s[i..j] != token {
      WordEnds(s, i, j);
      assert j <= start || (i == start && j == end);
    }
  }

  /** The first character from p on that is not a space. */
  method SkipSpaces(text: string, p: nat) returns (q: nat)
    requires p <= |CStr(text)|
    ensures p <= q <= |CStr(text)| && (q < |CStr(text)| ==> CStr(text)[q] != ' ')
    ensures forall k :: p <= k < q ==> CStr(text)[k] == ' '
  {
    q := p;
    CStrAt(text, q);
    while q < |text| && text[q] == ' '
      invariant p <= q <= |CStr(text)| && forall k :: p <= k < q ==> CStr(text)[k] == ' '
      invariant q < |CStr(text)| <==> q < |text| && text[q] != '\0'
      invariant q < |CStr(text)| ==> CStr(text)[q] == text[q]
    {
      q := q + 1;
      CStrAt(text, q);
    }
  }

  /** The end of the word at p. */
  method EndOfWord(text: string, p: nat) returns (q: nat)
    requires p <= |CStr(text)|
    ensures p <= q <= |CStr(text)| && (q < |CStr(text)| ==> CStr(text)[q] == ' ')
    ensures forall k :: p <= k < q ==> CStr(text)[k] != ' '
  {
    q := p;
    CStrAt(text, q);
    while q < |text| && text[q] != '\0' && text[q] != ' '
      invariant p <= q <= |CStr(text)| && forall k :: p <= k < q ==> CStr(text)[k] != ' '
      invariant q < |CStr(text)| <==> q < |text| && text[q] != '\0'
      invariant q < |CStr(text)| ==> CStr(text)[q] == text[q]
    {
      q := q + 1;
      CStrAt(text, q);
    }
  }

  method Strlen(s: string) returns (n: nat)
    ensures n == |CStr(s)| <= |s| && s[..n] == CStr(s)
  {
    n := 0;
    CStrAt(s, 0);
    while n < |s| && s[n] != '\0'
      invariant n <= |CStr(s)|
    {
      CStrAt(s, n);
      n := n + 1;
    }
    CStrAt(s, n);
  }

  /** hasToken() */
  method HasToken(status: Option<string>, token: string) returns (found: bool)
    ensures found <==> CStr(token) != "" && Holds(Text(status), CStr(token))
  {
    if status.None? || token == "" || token[0] == '\0' {
      return false;
    }
    var text, p := status.value, 0;
    ghost var s, t := CStr(text), CStr(token);
    var n := Strlen(token);
    CStrAt(text, 0);
    while p < |text| && text[p] != '\0'
      invariant p <= |s| && NoneUpTo(s, t, p) && (p > 0 ==> AtBoundary(s, p))
      invariant p < |s| <==> p < |text| && text[p] != '\0'
      decreases |s| - p
    {
      var start := SkipSpaces(text, p);
      NoWordInSpaces(s, t, p, start);
      assert start == 0 || s[start - 1] == ' ';
      p := EndOfWord(text, start);
      CStrAt(text, p);
      assert text[start..p] == s[start..p];
      if p - start == n && text[start..p] == token[..n] {
        assert WordAt(s, start, p);
        return true;
      }
      OneWord(s, t, start, p);
    }
    return false;
  }

  // ----- The latch -----

  /** One reading of the UPS, as checkAutoShutdown() takes it; offered: the catalog holds shutdown.default. */
  datatype Reading = Reading(connected: bool, stale: bool, status: Option<string>, offered: bool)

  const OL: string := ['O', 'L']
  const OB: string := ['O', 'B']
  const LB: string := ['L', 'B']

  ghost predicate OnLine(r: Reading) {
    r.connected && !r.stale && Holds(Text(r.status), OL)
  }

  /** On battery with low battery, the data fresh, and not on line. */
  ghost predicate Low(r: Reading) {
    && r.connected && !r.stale && !Holds(Text(r.status), OL)
    && Holds(Text(r.status), OB) && Holds(Text(r.status), LB)
  }

  datatype Fact = Read(reading: Reading) | Sent(result: CommandResult)

  datatype State = State(enabled: bool, armed: bool, facts: seq<Fact>)

  /** The option of the page, or a check with the outcome a command sent by it would have. */
  datatype Event = Toggle(enabled: bool) | Check(reading: Reading, result: CommandResult)

  const START: State := State(false, true, [])

  ghost function Step(s: State, e: Event): (r: State) {
    match e
    case Toggle(b) => s.(enabled := b)
    case Check(r, result) =>
      var seen := s.(facts := s.facts + [Read(r)]);
      if OnLine(r) then seen.(armed := true)
      else if Low(r) && s.armed && s.enabled && r.offered then
        seen.(armed := result == NotConnected, facts := seen.facts + [Sent(result)])
      else seen
  }

  ghost function Run(events: seq<Event>): (r: State)
    decreases |events|
  {
    if events == [] then START else Step(Run(events[..|events| - 1]), events[|events| - 1])
  }

  /** The option as the page last left it; it starts off. */
  function LastToggle(events: seq<Event>): (r: bool)
    decreases |events|
  {
    events != [] &&
      match events[|events| - 1]
      case Toggle(b) => b
      case Check(_, _) => LastToggle(events[..|events| - 1])
  }

  lemma {:induction false} OptionIsLastToggle(events: seq<Event>)
    ensures Run(events).enabled == LastToggle(events)
    decreases |events|
  {
    if events != [] {
      OptionIsLastToggle(events[..|events| - 1]);
    }
  }

  /** The words themselves. */
  lemma ReadingsSpelledOut(r: Reading)
    ensures OnLine(r) <==> r.connected && !r.stale && Holds(Text(r.status), "OL")
    ensures Low(r) <==>
      && r.connected && !r.stale && !Holds(Text(r.status), "OL")
      && Holds(Text(r.status), "OB") && Holds(Text(r.status), "LB")
  {
    assert OL == "OL" && OB == "OB" && LB == "LB";
  }

  predicate Uses(f: Fact) {
    f.Sent? && f.result != NotConnected
  }

  ghost predicate Rearms(f: Fact) {
    f.Read? && OnLine(f.reading)
  }

  /** A command that was answered used up the event, and the UPS has not been back on line since. */
  ghost predicate UsedUp(facts: seq<Fact>) {
    exists i :: 0 <= i < |facts| && Uses(facts[i]) && forall k :: i < k < |facts| ==> !Rearms(facts[k])
  }

  /** Every command follows a low reading, and no event that is used up. */
  ghost predicate CommandsOk(facts: seq<Fact>) {
    forall j :: 0 <= j < |facts| && facts[j].Sent? ==>
      && j > 0 && facts[j - 1].Read? && Low(facts[j - 1].reading) && facts[j - 1].reading.offered
      && !UsedUp(facts[..j])
  }

  ghost predicate Invariant(s: State) {
    (s.armed <==> !UsedUp(s.facts)) && CommandsOk(s.facts)
  }

  lemma UsedUpAfter(facts: seq<Fact>, f: Fact)
    ensures UsedUp(facts + [f]) <==> Uses(f) || (UsedUp(facts) && !Rearms(f))
  {
    var all := facts + [f];
    if Uses(f) {
      assert Uses(all[|facts|]);
    }
    if UsedUp(facts) && !Rearms(f) {
      var i :| 0 <= i < |facts| && Uses(facts[i]) && forall k :: i < k < |facts| ==> !Rearms(facts[k]);
      assert Uses(all[i]) && forall k :: i < k < |all| ==> !Rearms(all[k]);
    }
    if UsedUp(all) {
      var i :| 0 <= i < |all| && Uses(all[i]) && forall k :: i < k < |all| ==> !Rearms(all[k]);
      if i < |facts| {
        assert !Rearms(all[|facts|]) && Uses(facts[i]);
        assert forall k :: i < k < |facts| ==> !Rearms(all[k]) && all[k] == facts[k];
      }
    }
  }

  lemma CommandsAfter(facts: seq<Fact>, f: Fact)
    requires CommandsOk(facts)
    requires f.Sent? ==>
      (facts != [] && facts[|facts| - 1].Read? && Low(facts[|facts| - 1].reading) && facts[|facts| - 1].reading.offered
       && !UsedUp(facts))
    ensures CommandsOk(facts + [f])
  {
    var all := facts + [f];
    forall j | 0 <= j < |all| && all[j].Sent?
      ensures j > 0 && all[j - 1].Read? && Low(all[j - 1].reading) && all[j - 1].reading.offered && !UsedUp(all[..j])
    {
      assert all[..j] == facts[..j];
      assert facts[..|facts|] == facts;
    }
  }

  lemma StepOk(s: State, e: Event)
    requires Invariant(s)
    ensures Invariant(Step(s, e))
  {
    if e.Check? {
      var read := Read(e.reading);
      UsedUpAfter(s.facts, read);
      CommandsAfter(s.facts, read);
      if Low(e.reading) && s.armed && s.enabled && e.reading.offered {
        UsedUpAfter(s.facts + [read], Sent(e.result));
        CommandsAfter(s.facts + [read], Sent(e.result));
      }
    }
  }

  lemma {:induction false} RunOk(events: seq<Event>)
    ensures Invariant(Run(events))
    decreases |events|
  {
    if events != [] {
      RunOk(events[..|events| - 1]);
      StepOk(Run(events[..|events| - 1]), events[|events| - 1]);
    }
  }

  /**
   Over any run of readings, option changes and command outcomes: between two automatic commands, the first
   not answered NOT_CONNECTED, there is a connected and fresh reading that holds the word OL.
   */
  lemma OncePerEvent(events: seq<Event>, i: nat, j: nat)
    requires var facts := Run(events).facts;
      i < j < |facts| && facts[i].Sent? && facts[j].Sent? && facts[i].result != NotConnected
    ensures exists k :: i < k < j && Rearms(Run(events).facts[k])
  {
    RunOk(events);
    var facts := Run(events).facts;
    var before := facts[..j];
    assert !UsedUp(before) && Uses(before[i]);
    var k :| i < k < |before| && Rearms(before[k]);
    assert Rearms(facts[k]);
  }

  /** Every command answers a connected, fresh reading with OB and LB, without OL, of a UPS that offers it. */
  lemma OnlyWhenLow(events: seq<Event>, j: nat)
    requires j < |Run(events).facts| && Run(events).facts[j].Sent?
    ensures j > 0 && Run(events).facts[j - 1].Read? && Low(Run(events).facts[j - 1].reading)
      && Run(events).facts[j - 1].reading.offered
  {
    RunOk(events);
  }

  /**
   A check sends the command exactly when the page last turned the option on, the reading is low, the UPS offers
   it, and the event is not used up.
   */
  lemma SentExactly(events: seq<Event>, r: Reading, result: CommandResult)
    ensures var s := Run(events);
      Step(s, Check(r, result)).facts ==
        (if Low(r) && r.offered && LastToggle(events) && !UsedUp(s.facts) then s.facts + [Read(r), Sent(result)]
         else s.facts + [Read(r)])
  {
    RunOk(events);
    OptionIsLastToggle(events);
    var facts := Run(events).facts;
    assert (facts + [Read(r)]) + [Sent(result)] == facts + [Read(r), Sent(result)];
  }

  // ----- The latch in place -----

  /** An item of the command catalog: it may be missing or have no name. */
  datatype Command = Missing | Nameless | Named(name: string)

  const SHUTDOWN_DEFAULT: string := "shutdown.default"

  /** offersShutdownDefault() */
  method OffersShutdownDefault(commands: seq<Command>) returns (offered: bool)
    ensures offered <==> exists c <- commands :: c.Named? && CStr(c.name) == "shutdown.default"
  {
    for i := 0 to |commands|
      invariant forall k :: 0 <= k < i ==> !(commands[k].Named? && CStr(commands[k].name) == SHUTDOWN_DEFAULT)
    {
      if commands[i].Named? {
        var n := Strlen(commands[i].name);
        if commands[i].name[..n] == SHUTDOWN_DEFAULT {
          return true;
        }
      }
    }
    return false;
  }

  lemma Plain()
    ensures CStr(OL) == OL && CStr(OB) == OB && CStr(LB) == LB
  {
    assert OL[1..] == ['L'] && OB[1..] == ['B'] && LB[1..] == ['B'];
  }

  class Latch {
    var enabled: bool
    var armed: bool
    ghost var facts: seq<Fact>

    ghost function View(): (r: State)
      reads this
    {
      State(enabled, armed, facts)
    }

    constructor ()
      ensures View() == START
    {
      enabled, armed, facts := false, true, [];
    }

    method SetEnabled(b: bool)
      modifies this`enabled
      ensures View() == Step(old(View()), Toggle(b))
    {
      enabled := b;
    }

    /** onBatteryLow() */
    method OnBatteryLow(status: Option<string>) returns (low: bool)
      ensures low <==> Holds(Text(status), OB) && Holds(Text(status), LB)
    {
      Plain();
      low := HasToken(status, OB);
      if low {
        low := HasToken(status, LB);
      }
    }

    /** update() */
    method Update(connected: bool, stale: bool, status: Option<string>, available: bool) returns (send: bool)
      modifies this`armed
      ensures var r := Reading(connected, stale, status, available);
        && (send <==> Low(r) && old(armed) && enabled && available)
        && armed == if send then false else old(armed) || OnLine(r)
    {
      Plain();
      if !connected || stale {
        return false;
      }
      var onLine := HasToken(status, OL);
      if onLine {
        armed := true;
        return false;
      }
      var low := OnBatteryLow(status);
      if low && armed && enabled && available {
        armed := false;
        return true;
      }
      return false;
    }

    method RestoreArm()
      modifies this`armed
      ensures armed
    {
      armed := true;
    }

    /** checkAutoShutdown(): the catalog is read only on a low battery. */
    method CheckUps(connected: bool, stale: bool, status: Option<string>, commands: seq<Command>, result: CommandResult)
      modifies this
      ensures var offered := exists c <- commands :: c.Named? && CStr(c.name) == "shutdown.default";
        View() == Step(old(View()), Check(Reading(connected, stale, status, offered), result))
    {
      ghost var offered := exists c <- commands :: c.Named? && CStr(c.name) == SHUTDOWN_DEFAULT;
      facts := facts + [Read(Reading(connected, stale, status, offered))];
      var available := OnBatteryLow(status);
      if available {
        available := OffersShutdownDefault(commands);
      }
      var send := Update(connected, stale, status, available);
      if !send {
        return;
      }
      facts := facts + [Sent(result)];
      if result == NotConnected {
        RestoreArm();
      }
    }
  }
}
