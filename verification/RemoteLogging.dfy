/**
 Remote logging as a whole: the log task (src/core/log_dispatcher.cpp) draining the queue into the syslog
 output, whose own warnings enter the same queue. Once nothing else logs, draining ends.
 */
module RemoteLogging {
  import opened Prelude
  import TB = TokenBucket
  import Fanout
  import LogQueue
  import SyslogOutput

  const TAG: string := "[SYSLOG]"

  /** The queue, the syslog output, whether it is in a failure period, and its clock reading when it was enabled. */
  datatype System = System(queue: LogQueue.Queue, track: Fanout.Track, failing: bool, enabledAt: nat) {
    predicate Valid() {
      queue.Valid() && track.output.Valid() && track.output.tag == TAG && enabledAt < TWO_32
    }
  }

  /** What the world does while one record is delivered. */
  datatype Net = Net(ready: bool, time: nat, acks: Fanout.Acks, target: string)

  /** The warning of a failure period. */
  function Warning(net: Net): (r: Fanout.Record) {
    Fanout.Record(Wrap32(net.time), TB.WARN, false, (TAG + " Send to " + net.target + " failed"))
  }

  /** The line is the syslog output's own: it is never handed back to it. */
  predicate OwnLine(r: Fanout.Record) {
    !r.notice && Fanout.Own(TAG, r)
  }

  lemma WarningIsOwn(net: Net)
    ensures OwnLine(Warning(net))
  {
    assert Warning(net).msg == TAG + (" Send to " + net.target + " failed");
  }

  function LostRecord(count: nat, time: nat): (r: Fanout.Record) {
    Fanout.Record(Wrap32(time), TB.WARN, false, "[LOG] " + Decimal(count) + " lines lost: log queue full")
  }

  /** The two lines the log task and the output write themselves: warnings, not notices, with these texts. */
  lemma OwnTexts(net: Net, count: nat, time: nat)
    ensures Warning(net) ==
      Fanout.Record(Wrap32(net.time), TB.WARN, false, "[SYSLOG] Send to " + net.target + " failed")
    ensures LostRecord(count, time) ==
      Fanout.Record(Wrap32(time), TB.WARN, false, "[LOG] " + Decimal(count) + " lines lost: log queue full")
  {
    assert TAG + " Send to " == "[SYSLOG] Send to ";
  }

  /** The output's answers to what it was handed, one by one: the flag, and the failure periods begun. */
  function Answered(failing: bool, wire: seq<Fanout.Wire>): (r: (bool, nat))
    decreases |wire|
  {
    if wire == [] then (failing, 0)
    else
      var rest := Answered(!wire[0].ok, wire[1..]);
      (rest.0, rest.1 + if !wire[0].ok && !failing then 1 else 0)
  }

  function SubmitTimes(q: LogQueue.Queue, r: Fanout.Record, n: nat): (u: LogQueue.Queue)
    requires q.Valid()
    ensures u.Valid()
    decreases n
  {
    if n == 0 then q else SubmitTimes(LogQueue.Step(q, LogQueue.Submit(r)), r, n - 1)
  }

  /** One record through the outputs, and the warnings that come back into the queue. */
  function Deliver(s: System, r: Fanout.Record, net: Net): (u: System)
    requires s.Valid()
    ensures u.Valid()
  {
    var t := Fanout.Deliver(s.track.(output := s.track.output.(ready := net.ready)), r, net.time, net.acks);
    var (failing, warnings) := Answered(s.failing, t.wire[|s.track.wire|..]);
    s.(queue := SubmitTimes(s.queue, Warning(net), warnings), track := t, failing := failing)
  }

  /** The report of lost lines at the top of a round. */
  function Report(s: System, net: Net): (u: System)
    requires s.Valid()
    ensures u.Valid()
  {
    if s.queue.drops == s.queue.reported then s
    else Deliver(s.(queue := LogQueue.Step(s.queue, LogQueue.Report)), LostRecord(s.queue.Unreported(), net.time), net)
  }

  function Receive(s: System, net: Net): (u: System)
    requires s.Valid()
    ensures u.Valid()
  {
    if s.queue.items == [] then s
    else Deliver(s.(queue := LogQueue.Step(s.queue, LogQueue.Receive)), s.queue.items[0], net)
  }

  /**
   One round of run(): its clock is that of first, when it starts; ready is the network when shouldHold() looks
   at it, second what the world does when a line is taken.
   */
  datatype Round = Round(first: Net, ready: bool, second: Net)

  /** shouldHold() in that round. */
  predicate Held(s: System, r: Round) {
    Fanout.Holds(s.track.output.(ready := r.ready), s.enabledAt, r.first.time % 0x1_0000_0000)
  }

  function Look(s: System, ready: bool): (u: System)
    requires s.Valid()
    ensures u.Valid()
  {
    s.(track := s.track.(output := s.track.output.(ready := ready)))
  }

  function Step(s: System, r: Round): (u: System)
    requires s.Valid()
    ensures u.Valid()
  {
    var reported := Look(Report(s, r.first), r.ready);
    if Held(reported, r) then reported else Receive(reported, r.second)
  }

  function Run(s: System, rounds: seq<Round>): (u: System)
    requires s.Valid()
    ensures u.Valid()
    decreases |rounds|
  {
    if rounds == [] then s else Run(Step(s, rounds[0]), rounds[1..])
  }

  // ----- What is left to do -----

  /** A line of others can bring one warning; a report of lost lines too, and one that finds no room a new report. */
  function Cost(items: seq<Fanout.Record>): (r: nat) {
    if items == [] then 0 else Cost(items[..|items| - 1]) + if OwnLine(items[|items| - 1]) then 1 else 2
  }

  function Work(q: LogQueue.Queue): (r: nat) {
    Cost(q.items) + if q.drops != q.reported then 2 else 0
  }

  lemma CostAfter(items: seq<Fanout.Record>, r: Fanout.Record)
    ensures Cost(items + [r]) == Cost(items) + if OwnLine(r) then 1 else 2
  {
    assert (items + [r])[..|items|] == items;
  }

  lemma {:induction false} CostOfFirst(items: seq<Fanout.Record>)
    requires items != []
    ensures Cost(items) == Cost(items[1..]) + if OwnLine(items[0]) then 1 else 2
    decreases |items|
  {
    if |items| > 1 {
      var front := items[..|items| - 1];
      CostOfFirst(front);
      assert items[1..][..|items| - 2] == front[1..];
    }
  }

  lemma {:induction false} CostBounds(items: seq<Fanout.Record>)
    ensures |items| <= Cost(items) <= 2 * |items|
    decreases |items|
  {
    if items != [] {
      CostBounds(items[..|items| - 1]);
    }
  }

  lemma HandedAtMostTwo(t: Fanout.Track, r: Fanout.Record, time: nat, acks: Fanout.Acks)
    requires t.output.Valid()
    ensures |Fanout.Deliver(t, r, time, acks).wire| <= |t.wire| + 2
    ensures !r.notice && Fanout.Own(t.output.tag, r) ==> Fanout.Deliver(t, r, time, acks).wire == t.wire
  {
  }

  lemma TwoAnswers(failing: bool, wire: seq<Fanout.Wire>)
    requires |wire| <= 2
    ensures Answered(failing, wire).1 <= 1
    ensures wire == [] ==> Answered(failing, wire) == (failing, 0)
  {
    if wire != [] {
      assert Answered(!wire[0].ok, wire[1..]).1 <= 1 by {
        if |wire| == 2 {
          assert wire[1..][1..] == [];
        }
      }
      if !wire[0].ok && |wire| == 2 {
        assert wire[1..][1..] == [];
        assert Answered(true, wire[1..]).1 == 0;
      }
    }
  }

  /** A record brings at most one warning, and only when it is handed to the network. */
  lemma AtMostOneWarning(s: System, r: Fanout.Record, net: Net)
    requires s.Valid()
    ensures var u := Deliver(s, r, net);
      && (u.queue == s.queue || u.queue == LogQueue.Step(s.queue, LogQueue.Submit(Warning(net))))
      && (OwnLine(r) ==> u.queue == s.queue && u.track.wire == s.track.wire)
  {
    var t0 := s.track.(output := s.track.output.(ready := net.ready));
    var t := Fanout.Deliver(t0, r, net.time, net.acks);
    var handed := t.wire[|s.track.wire|..];
    HandedAtMostTwo(t0, r, net.time, net.acks);
    TwoAnswers(s.failing, handed);
    var n := Answered(s.failing, handed).1;
    assert n <= 1;
    if n == 1 {
      assert SubmitTimes(LogQueue.Step(s.queue, LogQueue.Submit(Warning(net))), Warning(net), 0)
        == LogQueue.Step(s.queue, LogQueue.Submit(Warning(net)));
    }
  }

  /** The i-th answer is a refusal after none: a failure period begins. */
  predicate BeginsAt(failing: bool, handed: seq<Fanout.Wire>, i: int) {
    0 <= i < |handed| && !handed[i].ok && (if i == 0 then !failing else handed[i - 1].ok)
  }

  ghost predicate Begins(failing: bool, handed: seq<Fanout.Wire>) {
    exists i :: BeginsAt(failing, handed, i)
  }

  lemma AnswersOfOne(failing: bool, handed: seq<Fanout.Wire>)
    requires |handed| <= 2
    ensures Answered(failing, handed).0 == if handed == [] then failing else !handed[|handed| - 1].ok
    ensures Answered(failing, handed).1 == if Begins(failing, handed) then 1 else 0
  {
    if |handed| == 1 {
      assert handed[1..] == [];
      assert BeginsAt(failing, handed, 0) <==> !handed[0].ok && !failing;
    } else if |handed| == 2 {
      var a, b := handed[0].ok, handed[1].ok;
      assert handed[1..][1..] == [];
      assert Answered(!a, handed[1..]) == (!b, if !b && a then 1 else 0);
      assert BeginsAt(failing, handed, 0) <==> !a && !failing;
      assert BeginsAt(failing, handed, 1) <==> !b && a;
    }
  }

  lemma SubmittedOnce(q: LogQueue.Queue, r: Fanout.Record)
    requires q.Valid()
    ensures SubmitTimes(q, r, 1) == LogQueue.Step(q, LogQueue.Submit(r)) && SubmitTimes(q, r, 0) == q
  {
    assert SubmitTimes(LogQueue.Step(q, LogQueue.Submit(r)), r, 0) == LogQueue.Step(q, LogQueue.Submit(r));
  }

  /** What one record changes: the output as the fanout has it, the flag, and one warning when a period begins. */
  lemma DeliveryExactly(s: System, r: Fanout.Record, net: Net)
    requires s.Valid()
    ensures var u := Deliver(s, r, net); var ready := s.track.(output := s.track.output.(ready := net.ready));
      && u.track == Fanout.Deliver(ready, r, net.time, net.acks) && u.enabledAt == s.enabledAt
      && s.track.wire <= u.track.wire
      && var handed := u.track.wire[|s.track.wire|..];
         && u.failing == (if handed == [] then s.failing else !handed[|handed| - 1].ok)
         && u.queue == (if Begins(s.failing, handed) then LogQueue.Step(s.queue, LogQueue.Submit(Warning(net)))
                        else s.queue)
  {
    var ready := s.track.(output := s.track.output.(ready := net.ready));
    HandedAtMostTwo(ready, r, net.time, net.acks);
    AnswersOfOne(s.failing, Fanout.Deliver(ready, r, net.time, net.acks).wire[|s.track.wire|..]);
    SubmittedOnce(s.queue, Warning(net));
  }

  /** Delivering changes neither the option nor the time it was switched on. */
  lemma ReportKeepsHold(s: System, r: Round)
    requires s.Valid()
    ensures Held(Look(Report(s, r.first), r.ready), r) == Held(s, r)
    ensures Step(s, r).enabledAt == s.enabledAt && Step(s, r).track.output.enabled == s.track.output.enabled
  {
  }

  /** A round that takes no line leaves the output as ready as the network was when it looked. */
  lemma RoundLooks(s: System, r: Round)
    requires s.Valid() && (Held(s, r) || Report(s, r.first).queue.items == [])
    ensures Step(s, r).track.output.ready == r.ready
  {
    ReportKeepsHold(s, r);
  }

  /** A warning costs one when there is room, and a report of a lost line otherwise. */
  lemma WarningCosts(q: LogQueue.Queue, net: Net)
    requires q.Valid()
    ensures var u := LogQueue.Step(q, LogQueue.Submit(Warning(net)));
      && (|q.items| < LogQueue.QUEUE_LENGTH ==> Work(u) == Work(q) + 1)
      && (|q.items| >= LogQueue.QUEUE_LENGTH && q.drops == q.reported ==> Work(u) == Work(q) + 2 && u.items == q.items)
  {
    WarningIsOwn(net);
    CostAfter(q.items, Warning(net));
    if |q.items| >= LogQueue.QUEUE_LENGTH && q.drops == q.reported {
      WrapMoves(q.drops);
    }
  }

  /** Reporting never adds work, and it takes some off unless the queue is full. */
  lemma ReportShrinks(s: System, net: Net)
    requires s.Valid()
    ensures var u := Report(s, net).queue;
      && Work(u) <= Work(s.queue)
      && (s.queue.drops != s.queue.reported ==> Work(u) < Work(s.queue) || u.items != [])
      && (s.queue.drops == s.queue.reported ==> u == s.queue)
  {
    if s.queue.drops != s.queue.reported {
      var q := LogQueue.Step(s.queue, LogQueue.Report);
      AtMostOneWarning(s.(queue := q), LostRecord(s.queue.Unreported(), net.time), net);
      WarningCosts(q, net);
    }
  }

  /** Taking a line from the queue takes work off. */
  lemma ReceiveShrinks(s: System, net: Net)
    requires s.Valid()
    ensures Work(Receive(s, net).queue) <= Work(s.queue)
    ensures s.queue.items != [] ==> Work(Receive(s, net).queue) < Work(s.queue)
  {
    if s.queue.items != [] {
      var q := LogQueue.Step(s.queue, LogQueue.Receive);
      CostOfFirst(s.queue.items);
      AtMostOneWarning(s.(queue := q), s.queue.items[0], net);
      WarningCosts(q, net);
    }
  }

  lemma RoundShrinks(s: System, r: Round)
    requires s.Valid()
    ensures Work(Step(s, r).queue) <= Work(s.queue)
    ensures !Held(s, r) && Work(s.queue) > 0 ==> Work(Step(s, r).queue) < Work(s.queue)
  {
    ReportKeepsHold(s, r);
    ReportShrinks(s, r.first);
    ReceiveShrinks(Look(Report(s, r.first), r.ready), r.second);
    CostBounds(s.queue.items);
  }

  /** The rounds in which the lines are not held. */
  function Free(s: System, rounds: seq<Round>): (r: nat) {
    if rounds == [] then 0 else (if Held(s, rounds[0]) then 0 else 1) + Free(s, rounds[1..])
  }

  /** What is held depends on the output's settings only. */
  lemma {:induction false} FreeKept(s: System, u: System, rounds: seq<Round>)
    requires u.enabledAt == s.enabledAt && u.track.output.enabled == s.track.output.enabled
    ensures Free(u, rounds) == Free(s, rounds)
    decreases |rounds|
  {
    if rounds != [] {
      FreeKept(s, u, rounds[1..]);
    }
  }

  lemma Shrinks(before: nat, after: nat, held: bool, free: nat)
    requires after <= before && (!held && before > 0 ==> after < before)
    ensures Max(0, after - free) <= Max(0, before - ((if held then 0 else 1) + free))
  {
  }

  lemma {:induction false} WorkShrinks(s: System, rounds: seq<Round>)
    requires s.Valid()
    ensures Work(Run(s, rounds).queue) <= Max(0, Work(s.queue) - Free(s, rounds))
    decreases |rounds|
  {
    if rounds != [] {
      var u := Step(s, rounds[0]);
      RoundShrinks(s, rounds[0]);
      ReportKeepsHold(s, rounds[0]);
      FreeKept(s, u, rounds[1..]);
      WorkShrinks(u, rounds[1..]);
      Shrinks(Work(s.queue), Work(u.queue), Held(s, rounds[0]), Free(s, rounds[1..]));
    }
  }

  /**
   Syslog never feeds on itself: once nothing else logs, whatever the network does, after at most two
   rounds for each line of others, one for each own line and two for the unreported drops (82 in all) in
   which the lines are not held, the queue is empty, nothing is left to report, and it stays so.
   */
  lemma DrainingEnds(s: System, rounds: seq<Round>)
    requires s.Valid() && Free(s, rounds) >= Work(s.queue)
    ensures var q := Run(s, rounds).queue; q.items == [] && q.drops == q.reported
    ensures Work(s.queue) <= 82
  {
    WorkShrinks(s, rounds);
    CostBounds(s.queue.items);
    CostBounds(Run(s, rounds).queue.items);
  }

  /** In real time: the output was enabled at enabled, and the round starts at r.first.time. */
  predicate Released(s: System, enabled: nat, r: Round) {
    !s.track.output.enabled || r.ready || Fanout.HOLD_MS <= r.first.time - enabled < 0x8000_0000
  }

  function CountReleased(s: System, enabled: nat, rounds: seq<Round>): (r: nat) {
    if rounds == [] then 0
    else (if Released(s, enabled, rounds[0]) then 1 else 0) + CountReleased(s, enabled, rounds[1..])
  }

  /** Until 2^31 ms after the enabling a round is free when the output is off or ready, or 60 s are over. */
  lemma ReleasedIsFree(s: System, enabled: nat, r: Round)
    requires s.enabledAt == enabled % 0x1_0000_0000 && r.first.time - enabled < 0x8000_0000
    requires r.first.time - enabled >= -0x8000_0000
    ensures Held(s, r) <==> !Released(s, enabled, r)
  {
    Fanout.HoldIsReal(s.track.output.(ready := r.ready), enabled, r.first.time);
  }

  lemma {:induction false} ReleasedAreFree(s: System, enabled: nat, rounds: seq<Round>)
    requires s.enabledAt == enabled % 0x1_0000_0000
    ensures CountReleased(s, enabled, rounds) <= Free(s, rounds)
    decreases |rounds|
  {
    if rounds != [] {
      if Released(s, enabled, rounds[0]) && s.track.output.enabled && !rounds[0].ready {
        ReleasedIsFree(s, enabled, rounds[0]);
      }
      ReleasedAreFree(s, enabled, rounds[1..]);
    }
  }

  /**
   When the rounds that drain come: each one with the network up counts, and from 60 s after the enabling
   (until 2^31 ms after it) each one does. 82 of them are enough.
   */
  lemma DrainingEndsInTime(s: System, enabled: nat, rounds: seq<Round>)
    requires s.Valid() && s.enabledAt == enabled % 0x1_0000_0000
    requires CountReleased(s, enabled, rounds) >= 82
    ensures var q := Run(s, rounds).queue; q.items == [] && q.drops == q.reported
  {
    ReleasedAreFree(s, enabled, rounds);
    CostBounds(s.queue.items);
    DrainingEnds(s, rounds);
  }

  /** Nothing is queued, reported, delivered or logged between the two. */
  ghost predicate Silent(s: System, u: System) {
    u.queue == s.queue && u.failing == s.failing && u.track.wire == s.track.wire && u.track.fates == s.track.fates
  }

  /** With nothing left to do, nothing more happens. */
  lemma {:induction false} QuietStaysQuiet(s: System, rounds: seq<Round>)
    requires s.Valid() && Work(s.queue) == 0
    ensures Silent(s, Run(s, rounds))
    decreases |rounds|
  {
    if rounds != [] {
      CostBounds(s.queue.items);
      QuietStaysQuiet(Step(s, rounds[0]), rounds[1..]);
    }
  }

  // ----- The failure flag of the composition is the sender's -----

  /** What the sender sees of the wire. */
  function FactsOf(wire: seq<Fanout.Wire>): (r: seq<SyslogOutput.Fact>) {
    if wire == [] then [] else [SyslogOutput.Delivered(wire[0].ok)] + FactsOf(wire[1..])
  }

  lemma OneMoreAnswer(facts: seq<SyslogOutput.Fact>, ok: bool)
    ensures var next := facts + [SyslogOutput.Delivered(ok)];
      && SyslogOutput.Failing(next) == !ok
      && SyslogOutput.Periods(next)
           == SyslogOutput.Periods(facts) + if !ok && !SyslogOutput.Failing(facts) then 1 else 0
  {
    var next := facts + [SyslogOutput.Delivered(ok)];
    assert next[..|facts|] == facts;
  }

  ghost predicate AsCounted(facts: seq<SyslogOutput.Fact>, all: seq<SyslogOutput.Fact>, a: (bool, nat)) {
    a.0 == SyslogOutput.Failing(all) && SyslogOutput.Periods(all) == SyslogOutput.Periods(facts) + a.1
  }

  lemma NoAnswer(facts: seq<SyslogOutput.Fact>)
    ensures AsCounted(facts, facts, (SyslogOutput.Failing(facts), 0))
  {
  }

  lemma FirstAnswer(facts: seq<SyslogOutput.Fact>, ok: bool, all: seq<SyslogOutput.Fact>, a: (bool, nat))
    requires AsCounted(facts + [SyslogOutput.Delivered(ok)], all, a)
    ensures AsCounted(facts, all, (a.0, a.1 + if !ok && !SyslogOutput.Failing(facts) then 1 else 0))
  {
    OneMoreAnswer(facts, ok);
  }

  /** The warnings are one for each failure period, as the sender counts them. */
  lemma {:induction false} AnswersArePeriods(facts: seq<SyslogOutput.Fact>, wire: seq<Fanout.Wire>)
    ensures AsCounted(facts, facts + FactsOf(wire), Answered(SyslogOutput.Failing(facts), wire))
    decreases |wire|
  {
    if wire == [] {
      assert facts + FactsOf(wire) == facts;
      NoAnswer(facts);
    } else {
      var ok, next := wire[0].ok, facts + [SyslogOutput.Delivered(wire[0].ok)];
      assert facts + FactsOf(wire) == next + FactsOf(wire[1..]);
      AnswersArePeriods(next, wire[1..]);
      FirstAnswer(facts, ok, next + FactsOf(wire[1..]), Answered(!ok, wire[1..])) by {
        OneMoreAnswer(facts, ok);
      }
    }
  }

  // ----- The log task in place -----

  lemma SameTime(t: Fanout.Track, r: Fanout.Record, time: nat, acks: Fanout.Acks)
    requires t.output.Valid()
    ensures Fanout.Deliver(t, r, time % 0x1_0000_0000, acks) == Fanout.Deliver(t, r, time, acks)
  {
    assert (time % 0x1_0000_0000) % 0x1_0000_0000 == time % 0x1_0000_0000;
    assert Fanout.Filtered(t, r, time % 0x1_0000_0000, acks) == Fanout.Filtered(t, r, time, acks);
  }

  /** One more answer of the transport. */
  lemma AnsweredLast(failing: bool, wire: seq<Fanout.Wire>, n: nat)
    requires n < |wire|
    ensures var a := Answered(failing, wire[..n]);
      Answered(failing, wire[..n + 1]) == (!wire[n].ok, a.1 + if !wire[n].ok && !a.0 then 1 else 0)
    decreases n
  {
    if n > 0 {
      AnsweredLast(!wire[0].ok, wire[1..], n - 1);
      assert wire[..n][1..] == wire[1..][..n - 1] && wire[..n + 1][1..] == wire[1..][..n];
    } else {
      assert wire[..1][1..] == [];
    }
  }

  lemma {:induction false} SubmitLast(q: LogQueue.Queue, r: Fanout.Record, n: nat)
    requires q.Valid()
    ensures SubmitTimes(q, r, n + 1) == LogQueue.Step(SubmitTimes(q, r, n), LogQueue.Submit(r))
    decreases n
  {
    if n > 0 {
      SubmitLast(LogQueue.Step(q, LogQueue.Submit(r)), r, n - 1);
    }
  }

  class LogTask {
    const dispatcher: LogQueue.LogDispatcher
    const output: Fanout.OutputBox
    var sendFailing: bool

    ghost predicate Valid()
      reads this, dispatcher, output, output.filter
    {
      dispatcher.Valid() && output.Valid() && output.tag == TAG
    }

    ghost function View(): (s: System)
      requires Valid()
      reads this, dispatcher, output, output.filter
      ensures s.Valid()
    {
      System(dispatcher.View(), output.View(), sendFailing, output.enabledAt as int)
    }

    constructor (d: LogQueue.LogDispatcher, o: Fanout.OutputBox)
      requires d.Valid() && o.Valid() && o.tag == TAG
      ensures Valid() && dispatcher == d && output == o && !sendFailing
    {
      dispatcher, output, sendFailing := d, o, false;
    }

    /** SyslogOutput::deliver() after the network answered: a warning when a failure period begins. */
    method Answer(ok: bool, net: Net)
      requires Valid()
      modifies this, dispatcher
      ensures Valid() && sendFailing == !ok && output.View() == old(output.View())
      ensures output.enabledAt == old(output.enabledAt)
      ensures dispatcher.View() ==
        (if !ok && !old(sendFailing) then LogQueue.Step(old(dispatcher.View()), LogQueue.Submit(Warning(net)))
         else old(dispatcher.View()))
    {
      if ok {
        sendFailing := false;
      } else if !sendFailing {
        sendFailing := true;
        dispatcher.SubmitRecord(Warning(net));
      }
    }

    /** The transport's answers to one record, in order. */
    method AnswerAll(handed: seq<bool>, net: Net, ghost wire: seq<Fanout.Wire>)
      requires Valid() && handed == Fanout.Answers(wire)
      modifies this, dispatcher
      ensures Valid() && sendFailing == Answered(old(sendFailing), wire).0
      ensures dispatcher.View() ==
        SubmitTimes(old(dispatcher.View()), Warning(net), Answered(old(sendFailing), wire).1)
    {
      ghost var failing, queue := sendFailing, dispatcher.View();
      var n := 0;
      assert wire[..0] == [];
      while n < |handed|
        invariant 0 <= n <= |handed| == |wire| && Valid()
        invariant sendFailing == Answered(failing, wire[..n]).0
        invariant dispatcher.View() == SubmitTimes(queue, Warning(net), Answered(failing, wire[..n]).1)
      {
        AnsweredLast(failing, wire, n);
        SubmitLast(queue, Warning(net), Answered(failing, wire[..n]).1);
        Answer(handed[n], net);
        n := n + 1;
      }
      assert wire[..n] == wire;
    }

    /** LogFanout::deliver() with the syslog output behind it. */
    method DeliverRecord(r: Fanout.Record, net: Net)
      requires Valid()
      modifies this, dispatcher, output, output.filter
      ensures Valid() && View() == Deliver(old(View()), r, net)
    {
      ghost var was := View();
      ghost var t0 := was.track.(output := was.track.output.(ready := net.ready));
      output.SetReady(net.ready);
      assert output.View() == t0;
      SameTime(t0, r, net.time, net.acks);
      var handed := output.Take(r, (net.time % 0x1_0000_0000) as uint32, net.acks);
      AnswerAll(handed, net, output.wire[|was.track.wire|..]);
    }

    /** LogFanout::shouldHold() for this output. */
    method ShouldHold(ready: bool, now: uint32) returns (hold: bool)
      requires Valid()
      modifies output
      ensures Valid() && View() == Look(old(View()), ready)
      ensures hold <==> Fanout.Holds(View().track.output, View().enabledAt, now as int)
    {
      output.SetReady(ready);
      hold := output.enabled && !output.ready
        && Fanout.Signed32(now as int, output.enabledAt as int) < Fanout.HOLD_MS;
    }

    method ReportLost(net: Net)
      requires Valid()
      modifies this, dispatcher, output, output.filter
      ensures Valid() && View() == Report(old(View()), net)
    {
      var lost := dispatcher.ReportDrops();
      if lost.Some? {
        DeliverRecord(LostRecord(lost.value as int, net.time), net);
      }
    }

    method ReceiveOne(net: Net)
      requires Valid()
      modifies this, dispatcher, output, output.filter
      ensures Valid() && View() == Receive(old(View()), net)
    {
      var r := dispatcher.ReceiveLine();
      if r.Some? {
        DeliverRecord(r.value, net);
      }
    }

    /** One round of run(). */
    method RunRound(first: Net, ready: bool, second: Net)
      requires Valid()
      modifies this, dispatcher, output, output.filter
      ensures Valid() && View() == Step(old(View()), Round(first, ready, second))
    {
      ReportLost(first);
      var hold := ShouldHold(ready, (first.time % 0x1_0000_0000) as uint32);
      if !hold {
        ReceiveOne(second);
      }
    }
  }
}
