/**
 Sending of syslog datagrams (src/network/syslog_output.cpp): the retries of a refused datagram, the periods
 of failure and the one warning each of them gets.
 */
module SyslogOutput {
  import opened Prelude

  const SEND_RETRY_MS: seq<nat> := [20, 60, 120]

  /** Whether the network takes each try of one datagram; a try without an answer is refused. */
  type Answers = seq<bool>

  predicate Taken(answers: Answers, i: nat) {
    i < |answers| && answers[i]
  }

  datatype Sending = Sending(ok: bool, tries: nat, paused: nat)

  /** The pauses before the retries from to until. */
  function Pauses(until: nat): (r: nat)
    requires until <= 3
  {
    if until == 0 then 0 else Pauses(until - 1) + SEND_RETRY_MS[until - 1]
  }

  /** The tries sendDatagram() may make. */
  function Limit(failing: bool, n: nat): (r: nat) {
    if failing || n == 0 then 1 else 4
  }

  /** The first taken try below the limit, or the limit. */
  function FirstTaken(answers: Answers, i: nat, limit: nat): (r: nat)
    requires i <= limit
    ensures i <= r <= limit
    ensures r < limit ==> Taken(answers, r)
    ensures forall k :: i <= k < r ==> !Taken(answers, k)
    decreases limit - i
  {
    if i == limit || Taken(answers, i) then i else FirstTaken(answers, i + 1, limit)
  }

  /** sendDatagram() of n octets. */
  function Send(failing: bool, n: nat, answers: Answers): (r: Sending) {
    var limit := Limit(failing, n);
    var first := FirstTaken(answers, 0, limit);
    if n == 0 || first == limit then Sending(false, limit, Pauses(limit - 1))
    else Sending(true, first + 1, Pauses(first))
  }

  // ----- Runs -----

  /** What the output does, in order: a record or a farewell given to the network, or new settings. */
  datatype Fact = Delivered(ok: bool) | Told(ok: bool) | Applied

  datatype State = State(failing: bool, warnings: nat, tries: nat, paused: nat, facts: seq<Fact>)

  const START: State := State(false, 0, 0, 0, [])

  datatype Event = Deliver(n: nat, answers: Answers) | Tell(n: nat, answers: Answers) | Apply

  function Step(s: State, e: Event): (r: State) {
    match e
    case Apply => s.(failing := false, facts := s.facts + [Applied])
    case Tell(n, answers) =>
      var d := Send(s.failing, n, answers);
      s.(tries := s.tries + d.tries, paused := s.paused + d.paused, facts := s.facts + [Told(d.ok)])
    case Deliver(n, answers) =>
      var d := Send(s.failing, n, answers);
      State(!d.ok, if d.ok || s.failing then s.warnings else s.warnings + 1,
            s.tries + d.tries, s.paused + d.paused, s.facts + [Delivered(d.ok)])
  }

  function Run(s: State, events: seq<Event>): (r: State)
    decreases |events|
  {
    if events == [] then s else Run(Step(s, events[0]), events[1..])
  }

  // ----- Failure periods, read off the facts alone -----

  /** The last delivery since the last settings was refused. */
  predicate Failing(facts: seq<Fact>)
    decreases |facts|
  {
    facts != [] &&
      match facts[|facts| - 1]
      case Delivered(ok) => !ok
      case Told(_) => Failing(facts[..|facts| - 1])
      case Applied => false
  }

  /** A refused delivery that the previous one, if any since the last settings, was not. */
  predicate StartsPeriod(facts: seq<Fact>, i: nat)
    requires i < |facts|
  {
    facts[i] == Delivered(false) && !Failing(facts[..i])
  }

  function Periods(facts: seq<Fact>): (r: nat)
    decreases |facts|
  {
    if facts == [] then 0
    else Periods(facts[..|facts| - 1]) + if StartsPeriod(facts, |facts| - 1) then 1 else 0
  }

  ghost predicate Invariant(s: State) {
    s.failing == Failing(s.facts) && s.warnings == Periods(s.facts)
  }

  lemma StepOk(s: State, e: Event)
    requires Invariant(s)
    ensures Invariant(Step(s, e))
  {
    var facts := Step(s, e).facts;
    assert facts[..|facts| - 1] == s.facts;
  }

  lemma {:induction false} RunOk(s: State, events: seq<Event>)
    requires Invariant(s)
    ensures Invariant(Run(s, events))
    decreases |events|
  {
    if events != [] {
      StepOk(s, events[0]);
      RunOk(Step(s, events[0]), events[1..]);
    }
  }

  /** Exactly one warning is logged for each maximal run of refused deliveries between settings. */
  lemma OneWarningForEachPeriod(events: seq<Event>)
    ensures var s := Run(START, events);
      s.warnings == Periods(s.facts) && (s.failing <==> Failing(s.facts))
  {
    RunOk(START, events);
  }

  // ----- What the retries cost -----

  lemma {:induction false} PausesAtMost(until: nat)
    requires until <= 4
    ensures until <= 3 ==> Pauses(until) <= 200
  {
    if until <= 3 {
      assert Pauses(0) == 0 && Pauses(1) == Pauses(0) + 20;
      assert Pauses(2) == Pauses(1) + 60 && Pauses(3) == Pauses(2) + 120;
    }
  }

  /** A datagram is delivered exactly when one of the tries it is allowed is taken. */
  lemma DeliveredExactly(failing: bool, n: nat, answers: Answers)
    ensures Send(failing, n, answers).ok <==>
      n > 0 && exists i :: 0 <= i < (if failing then 1 else 4) && Taken(answers, i)
    ensures Send(failing, n, answers).paused <= 200
    ensures failing || n == 0 || Taken(answers, 0) ==> Send(failing, n, answers).paused == 0
  {
    PausesAtMost(3);
    PausesAtMost(FirstTaken(answers, 0, 4));
    PausesAtMost(FirstTaken(answers, 0, Limit(failing, n)));
    assert Pauses(3) == Pauses(2) + 120 && Pauses(2) == Pauses(1) + 60 && Pauses(1) == 20;
  }

  /** The pauses in ms before the try that is taken: none, 20, 60 more, 120 more. */
  const PAUSED_BEFORE: seq<nat> := [0, 20, 80, 200]

  /** Which try is taken, and what was waited for it. */
  lemma TriesExactly(n: nat, answers: Answers, i: nat)
    requires n > 0 && i < 4 && Taken(answers, i) && forall k :: 0 <= k < i ==> !Taken(answers, k)
    ensures Send(false, n, answers) == Sending(true, i + 1, PAUSED_BEFORE[i])
    ensures Send(true, n, answers) == Sending(i == 0, 1, 0)
  {
    assert FirstTaken(answers, 0, 4) == i;
    assert Pauses(0) == 0 && Pauses(1) == Pauses(0) + 20;
    assert Pauses(2) == Pauses(1) + 60 && Pauses(3) == Pauses(2) + 120;
  }

  /** A farewell has the same tries and pauses as a record, and neither warns nor changes the failure flag. */
  lemma FarewellCosts(s: State, n: nat, answers: Answers, i: nat)
    requires n > 0 && i < 4 && Taken(answers, i) && forall k :: 0 <= k < i ==> !Taken(answers, k)
    ensures var u := Step(s, Tell(n, answers)); var ok := !s.failing || i == 0;
      && (u.failing, u.warnings) == (s.failing, s.warnings)
      && u.tries == s.tries + (if s.failing then 1 else i + 1)
      && u.paused == s.paused + (if s.failing then 0 else PAUSED_BEFORE[i])
      && u.facts == s.facts + [Told(ok)]
  {
    TriesExactly(n, answers, i);
  }

  predicate AllRefused(events: seq<Event>) {
    forall e <- events :: e.Deliver? && e.n > 0 && forall i :: 0 <= i < |e.answers| ==> !e.answers[i]
  }

  /** While the output is failing a dead server costs one try a line and no pause. */
  lemma {:induction false} NoPauseWhileFailing(s: State, events: seq<Event>)
    requires s.failing && AllRefused(events)
    ensures Run(s, events) == State(true, s.warnings, s.tries + |events|, s.paused, Run(s, events).facts)
    decreases |events|
  {
    if events != [] {
      assert events[0] in events && forall e <- events[1..] :: e in events;
      NoPauseWhileFailing(Step(s, events[0]), events[1..]);
    }
  }

  /** A dead server slows the log task down once: 200 ms for the first line, none for the others. */
  lemma DeadServerPausesOnce(s: State, events: seq<Event>)
    requires !s.failing && events != [] && AllRefused(events)
    ensures var r := Run(s, events);
      r.paused == s.paused + 200 && r.tries == s.tries + |events| + 3 && r.warnings == s.warnings + 1 && r.failing
  {
    assert events[0] in events && forall e <- events[1..] :: e in events;
    var d := Send(false, events[0].n, events[0].answers);
    assert FirstTaken(events[0].answers, 0, 4) == 4;
    assert Pauses(3) == Pauses(2) + 120 && Pauses(2) == Pauses(1) + 60 && Pauses(1) == Pauses(0) + 20;
    NoPauseWhileFailing(Step(s, events[0]), events[1..]);
  }

  // ----- The sender in place -----

  class Sender {
    var sendFailing: bool
    var sent: uint32
    var failed: uint32
    ghost var warnings: nat
    ghost var tries: nat
    ghost var paused: nat
    ghost var facts: seq<Fact>

    ghost function View(): (r: State)
      reads this
    {
      State(sendFailing, warnings, tries, paused, facts)
    }

    constructor ()
      ensures View() == START
    {
      sendFailing, sent, failed := false, 0, 0;
      warnings, tries, paused, facts := 0, 0, 0, [];
    }

    /** sendOnce() */
    method SendOnce(n: nat, taken: bool) returns (ok: bool)
      modifies this`tries
      ensures ok == (n > 0 && taken) && tries == old(tries) + 1
    {
      tries := tries + 1;
      return n > 0 && taken;
    }

    /** sendDatagram() */
    method SendDatagram(n: nat, answers: Answers) returns (ok: bool)
      modifies this`tries, this`paused
      ensures var d := Send(sendFailing, n, answers);
        ok == d.ok && tries == old(tries) + d.tries && paused == old(paused) + d.paused
    {
      ok := SendOnce(n, Taken(answers, 0));
      if ok || sendFailing || n == 0 {
        return;
      }
      var i := 0;
      while i < 3 && !ok
        invariant 0 <= i <= 3 && tries == old(tries) + i + 1 && paused == old(paused) + Pauses(i)
        invariant !ok ==> FirstTaken(answers, 0, 4) == FirstTaken(answers, i + 1, 4)
        invariant ok ==> FirstTaken(answers, 0, 4) == i
      {
        paused := paused + SEND_RETRY_MS[i];
        i := i + 1;
        ok := SendOnce(n, Taken(answers, i));
      }
    }

    /** deliver(): true when the network took the record; warn when the System Log gets a warning. */
    method DeliverRecord(n: nat, answers: Answers) returns (ok: bool, warn: bool)
      modifies this
      ensures View() == Step(old(View()), Deliver(n, answers)) && ok == Send(old(sendFailing), n, answers).ok
      ensures warn <==> warnings > old(warnings)
    {
      ok := SendDatagram(n, answers);
      facts := facts + [Delivered(ok)];
      warn := false;
      if ok {
        sendFailing := false;
      } else if !sendFailing {
        sendFailing, warn := true, true;
        warnings := warnings + 1;
      }
    }

    /** sendNow() */
    method SendNow(n: nat, answers: Answers) returns (ok: bool)
      modifies this
      ensures View() == Step(old(View()), Tell(n, answers)) && ok == Send(old(sendFailing), n, answers).ok
      ensures sent == (if ok then Next32(old(sent)) else old(sent))
      ensures failed == (if ok then old(failed) else Next32(old(failed)))
    {
      ok := SendDatagram(n, answers);
      facts := facts + [Told(ok)];
      if ok {
        sent := Next32(sent);
      } else {
        failed := Next32(failed);
      }
    }

    /** apply(): a farewell to the old server when there is one to tell, then a clean start. */
    method ApplySettings(farewell: Option<nat>, answers: Answers)
      modifies this
      ensures View() ==
        (if farewell.Some? then Step(Step(old(View()), Tell(farewell.value, answers)), Apply)
         else Step(old(View()), Apply))
    {
      if farewell.Some? {
        var _ := SendNow(farewell.value, answers);
      }
      sendFailing := false;
      facts := facts + [Applied];
    }
  }
}
