/**
 Delivery of log lines to the remote outputs (lib/LogCore/src/LogFanout.h, LogOutput.h): levels, rate limits,
 summaries of what was refused, and the counters of each output.
 */
module Fanout {
  import opened Prelude
  import TB = TokenBucket

  datatype Record = Record(uptime: nat, level: TB.Level, notice: bool, msg: string)

  datatype Stats = Stats(sent: nat, failed: nat, rateLimited: nat, notReady: nat)

  datatype Output = Output(enabled: bool, ready: bool, tag: string, filter: TB.Bucket, stats: Stats) {
    predicate Valid() {
      && filter.Valid()
      && stats.sent < TWO_32 && stats.failed < TWO_32 && stats.rateLimited < TWO_32 && stats.notReady < TWO_32
    }
  }

  /**
   What goes to the transport: a line, the count of the lines missed before the next one, or the notice the
   output itself sends to a server it is about to leave (SyslogOutput::sendNow).
   */
  datatype Content = Line(record: Record) | Summary(missed: nat) | Farewell

  datatype Wire = Wire(content: Content, ok: bool)

  /** What becomes of a record at one output; Told is a farewell between two records. */
  datatype Fate = Skipped | NotReady | Below | Limited | Passed(record: Record) | Noticed(record: Record) | Told

  /** The answers of the transport to a summary and to the line after it. */
  datatype Acks = Acks(summary: bool, line: bool)

  /** An output with what happened to every record so far and everything handed to the transport. */
  datatype Track = Track(output: Output, fates: seq<Fate>, wire: seq<Wire>)

  /** isOwnLine() */
  predicate Own(tag: string, r: Record) {
    tag != "" && tag <= r.msg
  }

  function Sent(s: Stats, ok: bool): (r: Stats) {
    if ok then s.(sent := Wrap32(s.sent + 1)) else s.(failed := Wrap32(s.failed + 1))
  }

  function Hand(t: Track, content: Content, ok: bool): (r: Track) {
    t.(output := t.output.(stats := Sent(t.output.stats, ok)), wire := t.wire + [Wire(content, ok)])
  }

  function Fated(t: Track, fate: Fate): (r: Track) {
    t.(fates := t.fates + [fate])
  }

  /** The part of deliver() for a line the filter lets through. */
  function Pass(t: Track, r: Record, acks: Acks): (result: Track) {
    var missed := t.output.filter.suppressed;
    var u := t.(output := t.output.(filter := t.output.filter.(suppressed := 0)));
    Hand(if missed > 0 then Hand(u, Summary(missed), acks.summary) else u, Line(r), acks.line)
  }

  function AfterDecision(t: Track, d: TB.Decision, r: Record, acks: Acks): (result: Track) {
    var s := t.output.stats;
    match d
    case BELOW_LEVEL => Fated(t, Below)
    case RATE_LIMITED =>
      Fated(t.(output := t.output.(stats := s.(rateLimited := Wrap32(s.rateLimited + 1)))), Limited)
    case SEND => Fated(Pass(t, r, acks), Passed(r))
  }

  function Filtered(t: Track, r: Record, time: nat, acks: Acks): (result: Track)
    requires t.output.Valid()
  {
    var (filter, decision) := TB.Check(t.output.filter, r.level, time % 0x1_0000_0000);
    AfterDecision(t.(output := t.output.(filter := filter)), decision, r, acks)
  }

  /** One output's turn in deliver(). */
  function Deliver(t: Track, r: Record, time: nat, acks: Acks): (u: Track)
    requires t.output.Valid()
    ensures u.output.Valid() && u.output.tag == t.output.tag && u.output.enabled == t.output.enabled
    ensures u.output.ready == t.output.ready
    ensures t.wire <= u.wire && t.fates <= u.fates && |u.fates| == |t.fates| + 1
    ensures u.output.filter.rate == t.output.filter.rate && u.output.filter.minLevel == t.output.filter.minLevel
  {
    var o := t.output;
    if !o.enabled then Fated(t, Skipped)
    else if !r.notice && Own(o.tag, r) then Fated(t, Skipped)
    else if !o.ready then Fated(t.(output := o.(stats := o.stats.(notReady := Wrap32(o.stats.notReady + 1)))), NotReady)
    else if r.notice then Fated(Hand(t, Line(r), acks.line), Noticed(r))
    else Filtered(t, r, time, acks)
  }

  // ----- Runs of one output -----

  datatype Event =
    | Enable(enabled: bool)
    | Readiness(ready: bool)
    | Configure(level: TB.Level, rate: nat)
    | Tell(ok: bool)
    | Offer(record: Record, time: nat, acks: Acks)

  function Step(t: Track, e: Event): (u: Track)
    requires t.output.Valid()
    ensures u.output.Valid() && u.output.tag == t.output.tag
  {
    match e
    case Enable(b) => t.(output := t.output.(enabled := b))
    case Readiness(b) => t.(output := t.output.(ready := b))
    case Configure(level, rate) =>
      t.(output := t.output.(filter := TB.Configured(level, rate, t.output.filter.suppressed)))
    case Tell(ok) => Fated(Hand(t, Farewell, ok), Told)
    case Offer(r, time, acks) => Deliver(t, r, time, acks)
  }

  function Run(t: Track, events: seq<Event>): (u: Track)
    requires t.output.Valid()
    ensures u.output.Valid() && u.output.tag == t.output.tag
    decreases |events|
  {
    if events == [] then t else Run(Step(t, events[0]), events[1..])
  }

  function Fresh(tag: string): (t: Track)
    ensures t.output.Valid()
  {
    Track(Output(false, false, tag, TB.Configured(TB.INFO, 10, 0), Stats(0, 0, 0, 0)), [], [])
  }

  // ----- What the wire must hold, told by the fates alone -----

  /** Records refused by the rate limit since the last one that passed it. */
  function RefusedSince(fates: seq<Fate>): (r: nat) {
    if fates == [] then 0
    else
      var f := fates[|fates| - 1];
      if f.Passed? then 0 else RefusedSince(fates[..|fates| - 1]) + if f.Limited? then 1 else 0
  }

  function Adds(f: Fate, missed: nat): (r: seq<Content>) {
    match f
    case Noticed(r) => [Line(r)]
    case Passed(r) => if missed > 0 then [Summary(missed), Line(r)] else [Line(r)]
    case Told => [Farewell]
    case _ => []
  }

  /** Every line that passed, in order, after a summary of the refusals since the previous one. */
  function Expected(fates: seq<Fate>): (r: seq<Content>) {
    if fates == [] then []
    else
      var front, f := fates[..|fates| - 1], fates[|fates| - 1];
      Expected(front) + Adds(f, Wrap32(RefusedSince(front)))
  }

  function Contents(wire: seq<Wire>): (r: seq<Content>)
    ensures |r| == |wire| && forall i :: 0 <= i < |r| ==> r[i] == wire[i].content
  {
    seq(|wire|, i requires 0 <= i < |wire| => wire[i].content)
  }

  function Count(fates: seq<Fate>, p: Fate -> bool): (r: nat) {
    if fates == [] then 0 else Count(fates[..|fates| - 1], p) + if p(fates[|fates| - 1]) then 1 else 0
  }

  function CountWire(wire: seq<Wire>, p: Wire -> bool): (r: nat) {
    if wire == [] then 0 else CountWire(wire[..|wire| - 1], p) + if p(wire[|wire| - 1]) then 1 else 0
  }

  function Reported(wire: seq<Wire>): (r: nat) {
    if wire == [] then 0
    else
      var c := wire[|wire| - 1].content;
      Reported(wire[..|wire| - 1]) + if c.Summary? then c.missed else 0
  }

  const LIMITED := (f: Fate) => f.Limited?
  const NOT_READY := (f: Fate) => f.NotReady?
  const OFFERED := (f: Fate) => !f.Skipped? && !f.Told?
  const BELOW := (f: Fate) => f.Below?
  const PASSED := (f: Fate) => f.Passed?
  const NOTICED := (f: Fate) => f.Noticed?
  const ACCEPTED := (w: Wire) => w.ok
  const REFUSED := (w: Wire) => !w.ok
  const SUMMARY := (w: Wire) => w.content.Summary?
  const LINE := (w: Wire) => w.content.Line?
  const FAREWELL := (w: Wire) => w.content.Farewell?

  lemma CountAfter(fates: seq<Fate>, f: Fate, p: Fate -> bool)
    ensures Count(fates + [f], p) == Count(fates, p) + if p(f) then 1 else 0
  {
    assert (fates + [f])[..|fates|] == fates;
  }

  lemma WireAfter(wire: seq<Wire>, w: Wire, p: Wire -> bool)
    ensures CountWire(wire + [w], p) == CountWire(wire, p) + if p(w) then 1 else 0
    ensures Reported(wire + [w]) == Reported(wire) + if w.content.Summary? then w.content.missed else 0
    ensures Contents(wire + [w]) == Contents(wire) + [w.content]
  {
    assert (wire + [w])[..|wire|] == wire;
  }

  ghost predicate WireCountersOk(t: Track) {
    && t.output.stats.sent == Wrap32(CountWire(t.wire, ACCEPTED))
    && t.output.stats.failed == Wrap32(CountWire(t.wire, REFUSED))
  }

  /** The counters are the tallies of the fates and of the wire, modulo 2^32. */
  ghost predicate CountersOk(t: Track) {
    && t.output.stats.rateLimited == Wrap32(Count(t.fates, LIMITED))
    && t.output.stats.notReady == Wrap32(Count(t.fates, NOT_READY))
    && WireCountersOk(t)
  }

  /** No refusal by the rate limit goes unreported. */
  ghost predicate LossesOk(t: Track) {
    && t.output.filter.suppressed == Wrap32(RefusedSince(t.fates))
    && Contents(t.wire) == Expected(t.fates)
  }

  ghost predicate Invariant(t: Track) {
    t.output.Valid() && CountersOk(t) && LossesOk(t)
  }

  lemma HandKeepsCounters(t: Track, c: Content, ok: bool)
    requires WireCountersOk(t)
    ensures WireCountersOk(Hand(t, c, ok))
    ensures Contents(Hand(t, c, ok).wire) == Contents(t.wire) + [c]
  {
    WireAfter(t.wire, Wire(c, ok), ACCEPTED);
    WireAfter(t.wire, Wire(c, ok), REFUSED);
    WrapSucc(CountWire(t.wire, ACCEPTED));
    WrapSucc(CountWire(t.wire, REFUSED));
  }

  lemma PassKeepsCounters(t: Track, r: Record, acks: Acks)
    requires WireCountersOk(t)
    ensures WireCountersOk(Pass(t, r, acks))
    ensures var m := t.output.filter.suppressed;
      Contents(Pass(t, r, acks).wire) == Contents(t.wire) + (if m > 0 then [Summary(m), Line(r)] else [Line(r)])
  {
    var m := t.output.filter.suppressed;
    var u := t.(output := t.output.(filter := t.output.filter.(suppressed := 0)));
    if m > 0 {
      HandKeepsCounters(u, Summary(m), acks.summary);
      HandKeepsCounters(Hand(u, Summary(m), acks.summary), Line(r), acks.line);
      assert (Contents(t.wire) + [Summary(m)]) + [Line(r)] == Contents(t.wire) + [Summary(m), Line(r)];
    } else {
      HandKeepsCounters(u, Line(r), acks.line);
    }
  }

  lemma FatedTallies(fates: seq<Fate>, f: Fate)
    ensures Count(fates + [f], LIMITED) == Count(fates, LIMITED) + if f.Limited? then 1 else 0
    ensures Count(fates + [f], NOT_READY) == Count(fates, NOT_READY) + if f.NotReady? then 1 else 0
    ensures RefusedSince(fates + [f]) ==
      if f.Passed? then 0 else RefusedSince(fates) + if f.Limited? then 1 else 0
    ensures Expected(fates + [f]) == Expected(fates) + Adds(f, Wrap32(RefusedSince(fates)))
  {
    CountAfter(fates, f, LIMITED);
    CountAfter(fates, f, NOT_READY);
    assert (fates + [f])[..|fates|] == fates;
  }

  /** A record refused by the rate limit. */
  lemma LimitedOk(t: Track, u: Track)
    requires CountersOk(t) && LossesOk(t)
    requires u.wire == t.wire && u.fates == t.fates + [Limited]
    requires u.output.stats == t.output.stats.(rateLimited := Wrap32(t.output.stats.rateLimited + 1))
    requires u.output.filter.suppressed == Wrap32(t.output.filter.suppressed + 1)
    ensures CountersOk(u) && LossesOk(u)
  {
    FatedTallies(t.fates, Limited);
    WrapSucc(Count(t.fates, LIMITED));
    WrapSucc(RefusedSince(t.fates));
    assert Expected(t.fates) + [] == Expected(t.fates);
  }

  /** A record with a fate that leaves the tallies of refusals and of the wire alone. */
  lemma UnsentOk(t: Track, u: Track, f: Fate)
    requires CountersOk(t) && LossesOk(t)
    requires f.Skipped? || f.Below? || f.NotReady?
    requires u.wire == t.wire && u.fates == t.fates + [f] && u.output.filter.suppressed == t.output.filter.suppressed
    requires u.output.stats == if f.NotReady? then t.output.stats.(notReady := Wrap32(t.output.stats.notReady + 1))
                               else t.output.stats
    ensures CountersOk(u) && LossesOk(u)
  {
    FatedTallies(t.fates, f);
    WrapSucc(Count(t.fates, NOT_READY));
    assert Expected(t.fates) + [] == Expected(t.fates);
  }

  lemma NoticedOk(t: Track, r: Record, ok: bool)
    requires CountersOk(t) && LossesOk(t)
    ensures CountersOk(Fated(Hand(t, Line(r), ok), Noticed(r))) && LossesOk(Fated(Hand(t, Line(r), ok), Noticed(r)))
  {
    FatedTallies(t.fates, Noticed(r));
    HandKeepsCounters(t, Line(r), ok);
  }

  lemma ToldOk(t: Track, ok: bool)
    requires CountersOk(t) && LossesOk(t)
    ensures CountersOk(Fated(Hand(t, Farewell, ok), Told)) && LossesOk(Fated(Hand(t, Farewell, ok), Told))
  {
    FatedTallies(t.fates, Told);
    HandKeepsCounters(t, Farewell, ok);
  }

  lemma PassedOk(t: Track, r: Record, acks: Acks)
    requires CountersOk(t) && LossesOk(t)
    ensures CountersOk(Fated(Pass(t, r, acks), Passed(r))) && LossesOk(Fated(Pass(t, r, acks), Passed(r)))
  {
    FatedTallies(t.fates, Passed(r));
    PassKeepsCounters(t, r, acks);
  }

  lemma FilteredOk(t: Track, r: Record, time: nat, acks: Acks)
    requires t.output.Valid() && CountersOk(t) && LossesOk(t)
    ensures CountersOk(Filtered(t, r, time, acks)) && LossesOk(Filtered(t, r, time, acks))
  {
    var (filter, decision) := TB.Check(t.output.filter, r.level, time % 0x1_0000_0000);
    var u := t.(output := t.output.(filter := filter));
    match decision {
      case BELOW_LEVEL => UnsentOk(t, Filtered(t, r, time, acks), Below);
      case RATE_LIMITED => LimitedOk(t, Filtered(t, r, time, acks));
      case SEND => PassedOk(u, r, acks);
    }
  }

  lemma DeliverOk(t: Track, r: Record, time: nat, acks: Acks)
    requires Invariant(t)
    ensures Invariant(Deliver(t, r, time, acks))
  {
    var o := t.output;
    if !o.enabled || (!r.notice && Own(o.tag, r)) {
      UnsentOk(t, Deliver(t, r, time, acks), Skipped);
    } else if !o.ready {
      UnsentOk(t, Deliver(t, r, time, acks), NotReady);
    } else if r.notice {
      NoticedOk(t, r, acks.line);
    } else {
      FilteredOk(t, r, time, acks);
    }
  }

  lemma {:induction false} RunOk(t: Track, events: seq<Event>)
    requires Invariant(t)
    ensures Invariant(Run(t, events))
    decreases |events|
  {
    if events != [] {
      if events[0].Offer? {
        DeliverOk(t, events[0].record, events[0].time, events[0].acks);
      } else if events[0].Tell? {
        ToldOk(t, events[0].ok);
      }
      RunOk(Step(t, events[0]), events[1..]);
    }
  }

  // ----- What the outputs promise -----

  /**
   Over every run, what was handed to the transport is exactly the accepted records in their order, each
   after one summary of the records refused since the previous one, and nothing else; what is not reported
   yet is pending. A new configuration forgets none of it.
   */
  lemma WireIsToldByTheFates(tag: string, events: seq<Event>)
    ensures var t := Run(Fresh(tag), events);
      && Contents(t.wire) == Expected(t.fates)
      && t.output.filter.suppressed == Wrap32(RefusedSince(t.fates))
  {
    RunOk(Fresh(tag), events);
  }

  function CountContents(contents: seq<Content>): (r: nat) {
    if contents == [] then 0
    else CountContents(contents[..|contents| - 1])
         + (if contents[|contents| - 1].Summary? then contents[|contents| - 1].missed else 0)
  }

  /** Summaries and pending refusals together are the refusals, exactly while fewer than 2^32 are pending at once. */
  ghost predicate Accounted(fates: seq<Fate>) {
    CountContents(Expected(fates)) + RefusedSince(fates) == Count(fates, LIMITED)
  }

  lemma CountContentsAfter(contents: seq<Content>, c: Content)
    ensures CountContents(contents + [c]) == CountContents(contents) + if c.Summary? then c.missed else 0
  {
    assert (contents + [c])[..|contents|] == contents;
  }

  function LinesIn(contents: seq<Content>): (r: nat) {
    if contents == [] then 0 else LinesIn(contents[..|contents| - 1]) + if contents[|contents| - 1].Line? then 1 else 0
  }

  lemma LinesInAfter(contents: seq<Content>, c: Content)
    ensures LinesIn(contents + [c]) == LinesIn(contents) + if c.Line? then 1 else 0
  {
    assert (contents + [c])[..|contents|] == contents;
  }

  lemma CountContentsAdds(contents: seq<Content>, f: Fate, missed: nat)
    ensures CountContents(contents + Adds(f, missed)) == CountContents(contents) + if f.Passed? then missed else 0
    ensures LinesIn(contents + Adds(f, missed)) == LinesIn(contents) + if f.Passed? || f.Noticed? then 1 else 0
  {
    if f.Passed? && missed > 0 {
      CountContentsAfter(contents, Summary(missed));
      CountContentsAfter(contents + [Summary(missed)], Line(f.record));
      LinesInAfter(contents, Summary(missed));
      LinesInAfter(contents + [Summary(missed)], Line(f.record));
      assert (contents + [Summary(missed)]) + [Line(f.record)] == contents + [Summary(missed), Line(f.record)];
    } else if f.Passed? || f.Noticed? {
      CountContentsAfter(contents, Line(f.record));
      LinesInAfter(contents, Line(f.record));
    } else if f.Told? {
      CountContentsAfter(contents, Farewell);
      LinesInAfter(contents, Farewell);
    } else {
      assert contents + [] == contents;
    }
  }

  /** The reported losses and the unreported ones are the refusals, modulo 2^32. */
  ghost predicate Reports(fates: seq<Fate>) {
    && Same32(CountContents(Expected(fates)) + RefusedSince(fates), Count(fates, LIMITED))
    && RefusedSince(fates) <= Count(fates, LIMITED)
  }

  lemma NothingToReport()
    ensures Reports([])
  {
    SameSelf(0);
  }

  lemma ReportsStep(front: seq<Fate>, f: Fate)
    requires Reports(front)
    ensures Reports(front + [f])
  {
    FatedTallies(front, f);
    var reported, pending := CountContents(Expected(front)), RefusedSince(front);
    CountContentsAdds(Expected(front), f, Wrap32(pending));
    SameShift(reported, pending, Count(front, LIMITED));
    SameSucc(reported + pending, Count(front, LIMITED));
  }

  lemma {:induction false} ReportsModulo(fates: seq<Fate>)
    ensures Reports(fates)
    decreases |fates|
  {
    if fates == [] {
      NothingToReport();
    } else {
      var front, f := fates[..|fates| - 1], fates[|fates| - 1];
      assert fates == front + [f];
      ReportsModulo(front);
      ReportsStep(front, f);
    }
  }

  /** Below 2^32 refusals nothing wraps. */
  lemma {:induction false} ReportsExact(fates: seq<Fate>)
    requires Count(fates, LIMITED) < TWO_32
    ensures Accounted(fates)
    decreases |fates|
  {
    if fates != [] {
      var front, f := fates[..|fates| - 1], fates[|fates| - 1];
      assert fates == front + [f];
      FatedTallies(front, f);
      ReportsExact(front);
      ReportsModulo(front);
      CountContentsAdds(Expected(front), f, Wrap32(RefusedSince(front)));
      WrapSmall(RefusedSince(front));
    }
  }

  lemma {:induction false} ReportedIsCounted(wire: seq<Wire>)
    ensures Reported(wire) == CountContents(Contents(wire))
    decreases |wire|
  {
    if wire != [] {
      ReportedIsCounted(wire[..|wire| - 1]);
      assert Contents(wire)[..|wire| - 1] == Contents(wire[..|wire| - 1]);
    }
  }

  lemma ReportedOrPending(t: Track)
    requires CountersOk(t) && LossesOk(t)
    ensures t.output.stats.rateLimited == Wrap32(Reported(t.wire) + t.output.filter.suppressed)
  {
    ReportsModulo(t.fates);
    ReportedIsCounted(t.wire);
    SameShift(Reported(t.wire), RefusedSince(t.fates), Count(t.fates, LIMITED));
    SameWraps(Reported(t.wire) + Wrap32(RefusedSince(t.fates)), Count(t.fates, LIMITED));
  }

  /** rate_limited is the sum of the counts in the summary lines and of the count still pending. */
  lemma RefusalsAreReportedOrPending(tag: string, events: seq<Event>)
    ensures var t := Run(Fresh(tag), events);
      t.output.stats.rateLimited == Wrap32(Reported(t.wire) + t.output.filter.suppressed)
  {
    RunOk(Fresh(tag), events);
    ReportedOrPending(Run(Fresh(tag), events));
  }

  /** Below 2^32 refusals the three are equal. */
  lemma RefusalsAreExact(tag: string, events: seq<Event>)
    requires Count(Run(Fresh(tag), events).fates, LIMITED) < TWO_32
    ensures var t := Run(Fresh(tag), events);
      t.output.stats.rateLimited == Reported(t.wire) + t.output.filter.suppressed == Count(t.fates, LIMITED)
  {
    RunOk(Fresh(tag), events);
    var t := Run(Fresh(tag), events);
    ReportsExact(t.fates);
    ReportedIsCounted(t.wire);
    WrapSmall(Count(t.fates, LIMITED));
    WrapSmall(RefusedSince(t.fates));
  }

  lemma {:induction false} WireSplits(wire: seq<Wire>)
    ensures CountWire(wire, ACCEPTED) + CountWire(wire, REFUSED) == |wire|
    ensures CountWire(wire, LINE) + CountWire(wire, SUMMARY) + CountWire(wire, FAREWELL) == |wire|
    decreases |wire|
  {
    if wire != [] {
      WireSplits(wire[..|wire| - 1]);
    }
  }

  lemma {:induction false} FatesSplit(fates: seq<Fate>)
    ensures Count(fates, OFFERED) == Count(fates, NOT_READY) + Count(fates, BELOW) + Count(fates, LIMITED)
      + Count(fates, PASSED) + Count(fates, NOTICED)
    decreases |fates|
  {
    if fates != [] {
      FatesSplit(fates[..|fates| - 1]);
    }
  }

  lemma {:induction false} ExpectedLines(fates: seq<Fate>)
    ensures LinesIn(Expected(fates)) == Count(fates, PASSED) + Count(fates, NOTICED)
    decreases |fates|
  {
    if fates != [] {
      var front, f := fates[..|fates| - 1], fates[|fates| - 1];
      ExpectedLines(front);
      assert fates == front + [f];
      CountContentsAdds(Expected(front), f, Wrap32(RefusedSince(front)));
    }
  }

  lemma {:induction false} LinesOnWire(wire: seq<Wire>)
    ensures CountWire(wire, LINE) == LinesIn(Contents(wire))
    decreases |wire|
  {
    if wire != [] {
      LinesOnWire(wire[..|wire| - 1]);
      assert Contents(wire)[..|wire| - 1] == Contents(wire[..|wire| - 1]);
    }
  }

  ghost predicate OfferedOnce(t: Track) {
    Wrap32(Count(t.fates, OFFERED))
    == Wrap32(t.output.stats.notReady + t.output.stats.rateLimited + (Count(t.fates, BELOW) + CountWire(t.wire, LINE)))
  }

  ghost predicate AnsweredOnce(t: Track) {
    Wrap32(t.output.stats.sent + t.output.stats.failed)
    == Wrap32(CountWire(t.wire, LINE) + CountWire(t.wire, SUMMARY) + CountWire(t.wire, FAREWELL))
  }

  lemma OfferedAreCounted(t: Track)
    requires CountersOk(t) && LossesOk(t)
    ensures OfferedOnce(t) && CountWire(t.wire, LINE) == Count(t.fates, PASSED) + Count(t.fates, NOTICED)
  {
    assert CountWire(t.wire, LINE) == Count(t.fates, PASSED) + Count(t.fates, NOTICED) by {
      LinesOnWire(t.wire);
      ExpectedLines(t.fates);
    }
    var rest := Count(t.fates, BELOW) + CountWire(t.wire, LINE);
    assert Count(t.fates, OFFERED) == Count(t.fates, NOT_READY) + Count(t.fates, LIMITED) + rest by {
      FatesSplit(t.fates);
    }
    WrapSum(Count(t.fates, NOT_READY), Count(t.fates, LIMITED), rest);
  }

  lemma AnswersAreCounted(t: Track)
    requires WireCountersOk(t)
    ensures AnsweredOnce(t)
  {
    WireSplits(t.wire);
    WrapSum(CountWire(t.wire, ACCEPTED), CountWire(t.wire, REFUSED), 0);
  }

  /**
   Each record offered is counted once: not ready, below the level, rate limited, or a line on the wire; and
   the transport's answers split the wire into sent and failed.
   */
  lemma EveryRecordIsCountedOnce(tag: string, events: seq<Event>)
    ensures var t := Run(Fresh(tag), events);
      OfferedOnce(t) && AnsweredOnce(t) && CountWire(t.wire, LINE) == Count(t.fates, PASSED) + Count(t.fates, NOTICED)
  {
    RunOk(Fresh(tag), events);
    OfferedAreCounted(Run(Fresh(tag), events));
    AnswersAreCounted(Run(Fresh(tag), events));
  }

  /** The text begins with the output's tag, if it has one. */
  predicate Tagged(tag: string, msg: string) {
    1 <= |tag| <= |msg| && msg[..|tag|] == tag
  }

  /** The output hands a record offered now to the transport. */
  predicate Accepts(o: Output, r: Record, time: nat)
    requires o.Valid()
  {
    && o.enabled && o.ready
    && (r.notice || (!Tagged(o.tag, r.msg) && r.level.Rank() >= o.filter.minLevel.Rank()
                     && TB.Refill(o.filter, time % 0x1_0000_0000).tokens >= 1000))
  }

  function SummaryOf(t: Track, acks: Acks): (r: Wire) {
    Wire(Summary(t.output.filter.suppressed), acks.summary)
  }

  lemma HandedExactly(t: Track, r: Record, time: nat, acks: Acks)
    requires t.output.Valid()
    ensures var u := Deliver(t, r, time, acks);
      && (u.wire != t.wire <==> Accepts(t.output, r, time))
      && (u.wire != t.wire ==>
            || u.wire == t.wire + [Wire(Line(r), acks.line)]
            || u.wire == t.wire + [SummaryOf(t, acks)] + [Wire(Line(r), acks.line)])
  {
  }

  /** What a record changes: nothing at all unless the output is enabled and the line is not its own. */
  lemma CountedExactly(t: Track, r: Record, time: nat, acks: Acks)
    requires t.output.Valid()
    ensures var o := t.output; var u := Deliver(t, r, time, acks).output;
      && (!o.enabled || (!r.notice && Tagged(o.tag, r.msg)) ==> u == o)
      && (u.stats.notReady != o.stats.notReady <==> o.enabled && !o.ready && (r.notice || !Tagged(o.tag, r.msg)))
      && (u.stats.rateLimited != o.stats.rateLimited <==>
            && o.enabled && o.ready && !r.notice && !Tagged(o.tag, r.msg)
            && r.level.Rank() >= o.filter.minLevel.Rank()
            && TB.Refill(o.filter, time % 0x1_0000_0000).tokens < 1000)
      && (u.filter != o.filter ==> o.enabled && o.ready && !r.notice && !Tagged(o.tag, r.msg))
  {
    WrapMoves(t.output.stats.notReady);
    WrapMoves(t.output.stats.rateLimited);
  }

  /** The records among what was handed to the transport. */
  function Handed(wire: seq<Wire>): (r: seq<Record>) {
    if wire == [] then []
    else
      var c := wire[|wire| - 1].content;
      Handed(wire[..|wire| - 1]) + if c.Line? then [c.record] else []
  }

  lemma HandedAfter(wire: seq<Wire>, w: Wire)
    ensures Handed(wire + [w]) == Handed(wire) + if w.content.Line? then [w.content.record] else []
  {
    assert (wire + [w])[..|wire|] == wire;
  }

  function AcceptedBy(t: Track, e: Event): (r: seq<Record>)
    requires t.output.Valid()
  {
    if e.Offer? && Accepts(t.output, e.record, e.time) then [e.record] else []
  }

  lemma Joined(a: seq<Record>, b: seq<Record>, c: seq<Record>)
    ensures (a + b) + c == a + (b + c)
  {
  }

  /** The records of a run that are accepted when they are offered. */
  function Accepted(t: Track, events: seq<Event>): (r: seq<Record>)
    requires t.output.Valid()
    decreases |events|
  {
    if events == [] then [] else AcceptedBy(t, events[0]) + Accepted(Step(t, events[0]), events[1..])
  }

  lemma StepHands(t: Track, e: Event)
    requires t.output.Valid()
    ensures Handed(Step(t, e).wire) == Handed(t.wire) + AcceptedBy(t, e)
  {
    match e {
      case Offer(r, time, acks) =>
        HandedExactly(t, r, time, acks);
        var summary := SummaryOf(t, acks);
        HandedAfter(t.wire, Wire(Line(r), acks.line));
        HandedAfter(t.wire, summary);
        HandedAfter(t.wire + [summary], Wire(Line(r), acks.line));
        assert Handed(t.wire) + [] == Handed(t.wire);
      case Tell(ok) => HandedAfter(t.wire, Wire(Farewell, ok));
      case _ =>
    }
  }

  /** Over any run, the records handed to the transport are those accepted when offered, in order, none twice. */
  lemma {:induction false} HandsWhatItAccepts(t: Track, events: seq<Event>)
    requires t.output.Valid()
    ensures Handed(Run(t, events).wire) == Handed(t.wire) + Accepted(t, events)
    decreases |events|
  {
    if events != [] {
      StepHands(t, events[0]);
      HandsWhatItAccepts(Step(t, events[0]), events[1..]);
      Joined(Handed(t.wire), AcceptedBy(t, events[0]), Accepted(Step(t, events[0]), events[1..]));
    }
  }

  // ----- Runs that change nothing -----

  /** A run without the lines the output writes about itself. */
  function WithoutOwn(tag: string, events: seq<Event>): (r: seq<Event>) {
    if events == [] then []
    else
      var e, rest := events[0], WithoutOwn(tag, events[1..]);
      if e.Offer? && !e.record.notice && Tagged(tag, e.record.msg) then rest else [e] + rest
  }

  predicate SameButFates(t: Track, u: Track) {
    t.output == u.output && t.wire == u.wire
  }

  /** No step looks at the fates. */
  lemma StepIgnoresFates(t: Track, u: Track, e: Event)
    requires t.output.Valid() && SameButFates(t, u)
    ensures SameButFates(Step(t, e), Step(u, e))
  {
  }

  lemma {:induction false} RunIgnoresFates(t: Track, u: Track, events: seq<Event>)
    requires t.output.Valid() && SameButFates(t, u)
    ensures SameButFates(Run(t, events), Run(u, events))
    decreases |events|
  {
    if events != [] {
      StepIgnoresFates(t, u, events[0]);
      RunIgnoresFates(Step(t, events[0]), Step(u, events[0]), events[1..]);
    }
  }

  /**
   Over any run, the lines an output writes about itself leave no trace at it: with and without them its
   counters, its filter and everything it handed to the transport are the same.
   */
  lemma {:induction false} OwnLinesLeaveNoTrace(t: Track, events: seq<Event>)
    requires t.output.Valid()
    ensures SameButFates(Run(t, events), Run(t, WithoutOwn(t.output.tag, events)))
    decreases |events|
  {
    if events != [] {
      var e, rest := events[0], WithoutOwn(t.output.tag, events[1..]);
      OwnLinesLeaveNoTrace(Step(t, e), events[1..]);
      if e.Offer? && !e.record.notice && Tagged(t.output.tag, e.record.msg) {
        HandedExactly(t, e.record, e.time, e.acks);
        CountedExactly(t, e.record, e.time, e.acks);
        RunIgnoresFates(Step(t, e), t, rest);
      } else {
        assert ([e] + rest)[1..] == rest;
      }
    }
  }

  /** Only records are offered. */
  predicate OnlyOffers(events: seq<Event>) {
    forall e <- events :: e.Offer?
  }

  /** The records offered that the output did not write itself. */
  function Foreign(tag: string, events: seq<Event>): (r: nat) {
    if events == [] then 0
    else
      (if events[0].Offer? && (events[0].record.notice || !Tagged(tag, events[0].record.msg)) then 1 else 0)
      + Foreign(tag, events[1..])
  }

  function Missed(o: Output, n: nat): (r: Output) {
    o.(stats := o.stats.(notReady := Wrap32(o.stats.notReady + n)))
  }

  lemma MissedTwice(o: Output, n: nat, m: nat)
    ensures Missed(Missed(o, n), m) == Missed(o, n + m)
  {
    WrapShift(m, o.stats.notReady + n);
  }

  lemma ForeignSplits(tag: string, events: seq<Event>)
    requires events != []
    ensures Foreign(tag, events) == Foreign(tag, [events[0]]) + Foreign(tag, events[1..])
  {
  }

  /** What an output that is not ready does with one record. */
  lemma NotReadyStep(t: Track, e: Event)
    requires t.output.Valid() && t.output.enabled && !t.output.ready && e.Offer?
    ensures var u := Step(t, e); u.wire == t.wire && u.output == Missed(t.output, Foreign(t.output.tag, [e]))
  {
    HandedExactly(t, e.record, e.time, e.acks);
    CountedExactly(t, e.record, e.time, e.acks);
    assert Foreign(t.output.tag, [e]) == if e.record.notice || !Tagged(t.output.tag, e.record.msg) then 1 else 0;
    WrapSmall(t.output.stats.notReady);
  }

  /**
   While an enabled output is not ready, whatever is offered only counts: nothing reaches the transport, no
   token is spent, no refusal is noted.
   */
  lemma {:induction false} NotReadyOnlyCounts(t: Track, events: seq<Event>)
    requires t.output.Valid() && t.output.enabled && !t.output.ready && OnlyOffers(events)
    ensures var u := Run(t, events); u.wire == t.wire && u.output == Missed(t.output, Foreign(t.output.tag, events))
    decreases |events|
  {
    var tag := t.output.tag;
    if events == [] {
      WrapSmall(t.output.stats.notReady);
    } else {
      NotReadyStep(t, events[0]);
      NotReadyOnlyCounts(Step(t, events[0]), events[1..]);
      MissedTwice(t.output, Foreign(tag, [events[0]]), Foreign(tag, events[1..]));
      ForeignSplits(tag, events);
    }
  }

  // ----- The settings -----

  /** What the last of these events set, or what was there before. */
  function LastEnabled(was: bool, events: seq<Event>): (r: bool)
    decreases |events|
  {
    if events == [] then was
    else LastEnabled(if events[0].Enable? then events[0].enabled else was, events[1..])
  }

  function LastReady(was: bool, events: seq<Event>): (r: bool)
    decreases |events|
  {
    if events == [] then was
    else LastReady(if events[0].Readiness? then events[0].ready else was, events[1..])
  }

  /** The level and the rate, which is kept from 1 to 100 lines a second. */
  function LastFilter(was: (TB.Level, nat), events: seq<Event>): (r: (TB.Level, nat))
    decreases |events|
  {
    if events == [] then was
    else match events[0]
      case Configure(level, rate) =>
        LastFilter((level, if rate < 1 then 1 else if rate > 100 then 100 else rate), events[1..])
      case _ => LastFilter(was, events[1..])
  }

  lemma {:induction false} SettingsFollow(t: Track, events: seq<Event>)
    requires t.output.Valid()
    ensures var o := Run(t, events).output;
      && o.enabled == LastEnabled(t.output.enabled, events) && o.ready == LastReady(t.output.ready, events)
      && (o.filter.minLevel, o.filter.rate) == LastFilter((t.output.filter.minLevel, t.output.filter.rate), events)
    decreases |events|
  {
    if events != [] {
      SettingsFollow(Step(t, events[0]), events[1..]);
    }
  }

  /** An output starts disabled, not ready, at INFO and 10 lines a second, and then has what was last set. */
  lemma SettingsAreTheLast(tag: string, events: seq<Event>)
    ensures var o := Run(Fresh(tag), events).output;
      && o.enabled == LastEnabled(false, events) && o.ready == LastReady(false, events)
      && (o.filter.minLevel, o.filter.rate) == LastFilter((TB.INFO, 10), events) && o.tag == tag
  {
    SettingsFollow(Fresh(tag), events);
  }

  // ----- Own lines -----

  predicate NoOwn(tag: string, wire: seq<Wire>) {
    forall w <- wire :: w.content.Line? ==> w.content.record.notice || !Tagged(tag, w.content.record.msg)
  }

  lemma StepKeepsOwnLocal(t: Track, e: Event)
    requires t.output.Valid() && NoOwn(t.output.tag, t.wire)
    ensures NoOwn(t.output.tag, Step(t, e).wire)
  {
  }

  /** The lines an output writes about itself never come back to it. */
  lemma {:induction false} OwnLinesStayLocal(t: Track, events: seq<Event>)
    requires t.output.Valid() && NoOwn(t.output.tag, t.wire)
    ensures NoOwn(t.output.tag, Run(t, events).wire)
    decreases |events|
  {
    if events != [] {
      StepKeepsOwnLocal(t, events[0]);
      OwnLinesStayLocal(Step(t, events[0]), events[1..]);
    }
  }

  // ----- The rate on the wire -----

  /** Offers in the order of time, and no new configuration. */
  predicate Steady(events: seq<Event>, from: nat, to: nat)
    decreases |events|
  {
    from <= to && (events == [] ||
      match events[0]
      case Offer(_, time, _) => from <= time && Steady(events[1..], time, to)
      case Configure(_, _) => false
      case _ => Steady(events[1..], from, to))
  }

  predicate Checked(o: Output, r: Record) {
    o.enabled && o.ready && !r.notice && !Own(o.tag, r)
  }

  function SeenOf(t: Track, e: Event): (r: seq<TB.Event>)
    requires t.output.Valid()
  {
    if e.Offer? && Checked(t.output, e.record) then
      var line := TB.Line(e.record.level, e.time);
      if TB.Decide(t.output.filter, line) == Some(TB.SEND) then [line, TB.Take] else [line]
    else []
  }

  /** What the filter sees of a run. */
  function Seen(t: Track, events: seq<Event>): (r: seq<TB.Event>)
    requires t.output.Valid()
    decreases |events|
  {
    if events == [] then []
    else SeenOf(t, events[0]) + Seen(Step(t, events[0]), events[1..])
  }

  lemma SteadyEnds(events: seq<Event>, from: nat, to: nat)
    requires Steady(events, from, to)
    ensures from <= to
  {
  }

  lemma {:induction false} SeenIsOrdered(t: Track, events: seq<Event>, from: nat, to: nat)
    requires t.output.Valid() && Steady(events, from, to)
    ensures TB.Ordered(Seen(t, events), from, to)
    decreases |events|
  {
    if events != [] {
      var e, first := events[0], SeenOf(t, events[0]);
      var next := if e.Offer? then e.time else from;
      var rest := Seen(Step(t, e), events[1..]);
      SeenIsOrdered(Step(t, e), events[1..], next, to);
      if first == [] {
        assert first + rest == rest;
        TB.LaterStart(rest, from, next, to);
      } else if |first| == 1 {
        assert (first + rest)[1..] == rest;
      } else {
        assert (first + rest)[1..] == [TB.Take] + rest && ([TB.Take] + rest)[1..] == rest;
        assert TB.Ordered([TB.Take] + rest, next, to);
      }
      SteadyEnds(events, from, to);
    }
  }

  function AfterStep(b: TB.Bucket, first: seq<TB.Event>): (r: TB.Bucket)
    requires b.Valid() && |first| <= 2
    ensures r.Valid()
  {
    if first == [] then b else if |first| == 1 then TB.Step(b, first[0]) else TB.Step(TB.Step(b, first[0]), TB.Take)
  }

  /** The line e offers passes the filter. */
  predicate Passes(t: Track, e: Event)
    requires t.output.Valid()
  {
    SeenOf(t, e) != [] && TB.Decide(t.output.filter, SeenOf(t, e)[0]) == Some(TB.SEND)
  }

  lemma PassedExactlyOnSend(t: Track, e: Event)
    requires t.output.Valid() && !e.Configure?
    ensures var u := Step(t, e); var s := SeenOf(t, e);
      && |s| <= 2 && (|s| == 2 ==> s[1] == TB.Take)
      && u.output.filter == AfterStep(t.output.filter, s)
      && (e.Offer? ==> |u.fates| == |t.fates| + 1 && (u.fates[|t.fates|].Passed? <==> Passes(t, e)))
      && (!e.Offer? ==> u.fates == t.fates || u.fates == t.fates + [Told])
      && (|s| == 2 <==> Passes(t, e))
  {
  }

  lemma StepPasses(t: Track, e: Event)
    requires t.output.Valid() && !e.Configure?
    ensures Count(Step(t, e).fates, PASSED) == Count(t.fates, PASSED) + if Passes(t, e) then 1 else 0
  {
    var u := Step(t, e);
    PassedExactlyOnSend(t, e);
    if e.Offer? || e.Tell? {
      CountAfter(t.fates, u.fates[|t.fates|], PASSED);
      assert u.fates == t.fates + [u.fates[|t.fates|]];
    }
  }

  lemma OneDecision(b: TB.Bucket, e: TB.Event, rest: seq<TB.Event>)
    requires b.Valid()
    ensures TB.Sends(TB.Decisions(b, [e] + rest))
         == (if TB.Decide(b, e) == Some(TB.SEND) then 1 else 0) + TB.Sends(TB.Decisions(TB.Step(b, e), rest))
  {
    assert ([e] + rest)[1..] == rest;
  }

  /** The first one or two things the filter sees, then the others. */
  lemma SendsOfStep(b: TB.Bucket, first: seq<TB.Event>, rest: seq<TB.Event>)
    requires b.Valid() && |first| <= 2 && (|first| == 2 ==> first[1] == TB.Take)
    ensures TB.Sends(TB.Decisions(b, first + rest)) ==
      (if first != [] && TB.Decide(b, first[0]) == Some(TB.SEND) then 1 else 0)
      + TB.Sends(TB.Decisions(AfterStep(b, first), rest))
  {
    if first == [] {
      assert first + rest == rest;
    } else if |first| == 1 {
      assert first + rest == [first[0]] + rest;
      OneDecision(b, first[0], rest);
    } else {
      assert first + rest == [first[0]] + ([TB.Take] + rest);
      OneDecision(b, first[0], [TB.Take] + rest);
      OneDecision(TB.Step(b, first[0]), TB.Take, rest);
    }
  }

  lemma {:induction false} PassesAreSends(t: Track, events: seq<Event>, from: nat, to: nat)
    requires t.output.Valid() && Steady(events, from, to)
    ensures Count(Run(t, events).fates, PASSED)
         == Count(t.fates, PASSED) + TB.Sends(TB.Decisions(t.output.filter, Seen(t, events)))
    ensures Run(t, events).output.filter.rate == t.output.filter.rate
    decreases |events|
  {
    if events != [] {
      var e, first := events[0], SeenOf(t, events[0]);
      var next := if e.Offer? then e.time else from;
      var u := Step(t, e);
      PassesAreSends(u, events[1..], next, to);
      PassedExactlyOnSend(t, e);
      StepPasses(t, e);
      SendsOfStep(t.output.filter, first, Seen(u, events[1..]));
    }
  }

  lemma WindowRate(t: Track, window: seq<Event>, from: nat, to: nat)
    requires t.output.Valid() && Steady(window, from, to)
    ensures var rate := t.output.filter.rate;
      Count(Run(t, window).fates, PASSED) - Count(t.fates, PASSED) <= TB.Burst(rate) + rate * (to - from) / 1000
  {
    PassesAreSends(t, window, from, to);
    SeenIsOrdered(t, window, from, to);
    TB.WindowAverage(t.output.filter, Seen(t, window), from, to);
  }

  /**
   In any window without a new configuration, an output lets at most the burst and rate lines a second
   through its rate limit, whatever is offered, whatever the network does and however the clock wraps.
   */
  lemma WireRate(tag: string, before: seq<Event>, window: seq<Event>, from: nat, to: nat)
    requires Steady(window, from, to)
    ensures var t := Run(Fresh(tag), before); var rate := t.output.filter.rate;
      Count(Run(t, window).fates, PASSED) - Count(t.fates, PASSED) <= Max(20, 4 * rate) + rate * (to - from) / 1000
  {
    WindowRate(Run(Fresh(tag), before), window, from, to);
  }

  // ----- Holding lines back -----

  const HOLD_MS: nat := 60_000

  /** (int32_t)(a - b) of two uint32_t. */
  function Signed32(a: nat, b: nat): (r: int) {
    var d := (a - b) % 0x1_0000_0000;
    if d < 0x8000_0000 then d else d - TWO_32
  }

  /** shouldHold() for one output enabled at a clock reading. */
  predicate Holds(o: Output, enabledAt: nat, now: nat) {
    o.enabled && !o.ready && Signed32(now, enabledAt) < HOLD_MS
  }

  lemma Difference(a: nat, b: nat)
    ensures (b % 0x1_0000_0000 - a % 0x1_0000_0000) % 0x1_0000_0000 == (b - a) % 0x1_0000_0000
  {
    var k := b / TWO_32 - a / TWO_32;
    assert b - a == k * TWO_32 + (b % 0x1_0000_0000 - a % 0x1_0000_0000);
    TB.ModAdd(b % 0x1_0000_0000 - a % 0x1_0000_0000, k);
  }

  /** Within 2^31 ms either way the hold is the real one. */
  lemma HoldIsReal(o: Output, enabled: nat, t: nat)
    requires -0x8000_0000 <= t - enabled < 0x8000_0000
    ensures Holds(o, enabled % 0x1_0000_0000, t % 0x1_0000_0000) <==> o.enabled && !o.ready && t - enabled < 60_000
  {
    Difference(enabled, t);
  }

  /** For any time since it was enabled: the hold comes back for half of every clock wrap. */
  lemma HoldExactly(o: Output, enabled: nat, t: nat)
    requires enabled <= t && o.enabled && !o.ready
    ensures Holds(o, enabled % 0x1_0000_0000, t % 0x1_0000_0000) <==>
      (t - enabled) % 0x1_0000_0000 < HOLD_MS || (t - enabled) % 0x1_0000_0000 >= 0x8000_0000
  {
    Difference(enabled, t);
  }

  /** The transport's answers, in order. */
  function Answers(wire: seq<Wire>): (r: seq<bool>)
    ensures |r| == |wire| && forall i :: 0 <= i < |r| ==> r[i] == wire[i].ok
  {
    seq(|wire|, i requires 0 <= i < |wire| => wire[i].ok)
  }

  lemma FilteredBy(t: Track, r: Record, now: nat, acks: Acks, c: (TB.Bucket, TB.Decision))
    requires t.output.Valid() && now < TWO_32 && c == TB.Check(t.output.filter, r.level, now)
    ensures Filtered(t, r, now, acks) == AfterDecision(t.(output := t.output.(filter := c.0)), c.1, r, acks)
  {
  }

  lemma PassAnswers(t: Track, r: Record, acks: Acks)
    ensures |t.wire| <= |Pass(t, r, acks).wire|
    ensures Answers(Pass(t, r, acks).wire[|t.wire|..]) ==
      if t.output.filter.suppressed > 0 then [acks.summary, acks.line] else [acks.line]
  {
  }

  // ----- The outputs in place -----

  class OutputBox {
    const tag: string
    const filter: TB.Filter
    var enabled: bool
    var ready: bool
    var sent: uint32
    var failed: uint32
    var rateLimited: uint32
    var notReady: uint32
    var enabledAt: uint32
    ghost var fates: seq<Fate>
    ghost var wire: seq<Wire>

    ghost predicate Valid()
      reads this, filter
    {
      filter.Valid()
    }

    ghost function View(): (t: Track)
      requires Valid()
      reads this, filter
      ensures t.output.Valid()
    {
      Track(Output(enabled, ready, tag, filter.View(),
                   Stats(sent as int, failed as int, rateLimited as int, notReady as int)), fates, wire)
    }

    constructor (t: string)
      ensures Valid() && fresh(filter) && View() == Fresh(t)
    {
      tag := t;
      filter := new TB.Filter();
      enabled, ready := false, false;
      sent, failed, rateLimited, notReady, enabledAt := 0, 0, 0, 0, 0;
      fates, wire := [], [];
    }

    /** send() */
    method Send(content: Content, ok: bool)
      requires Valid()
      modifies this`sent, this`failed, this`wire
      ensures Valid() && View() == Hand(old(View()), content, ok)
    {
      wire := wire + [Wire(content, ok)];
      if ok {
        sent := Next32(sent);
      } else {
        failed := Next32(failed);
      }
    }

    method PassLine(r: Record, acks: Acks) returns (handed: seq<bool>)
      requires Valid()
      modifies this`sent, this`failed, this`wire, filter
      ensures Valid() && View() == Pass(old(View()), r, acks)
      ensures handed == if old(View()).output.filter.suppressed > 0 then [acks.summary, acks.line] else [acks.line]
    {
      handed := [];
      var missed := filter.TakeSuppressed();
      if missed > 0 {
        Send(Summary(missed as int), acks.summary);
        handed := [acks.summary];
      }
      Send(Line(r), acks.line);
      handed := handed + [acks.line];
    }

    /** What follows the decision of the filter. */
    method Decided(d: TB.Decision, r: Record, acks: Acks) returns (handed: seq<bool>)
      requires Valid()
      modifies this`sent, this`failed, this`rateLimited, this`wire, this`fates, filter
      ensures Valid() && View() == AfterDecision(old(View()), d, r, acks)
      ensures handed == Answers(wire[|old(wire)|..])
    {
      handed := [];
      if d == TB.BELOW_LEVEL {
        fates := fates + [Below];
      } else if d == TB.RATE_LIMITED {
        rateLimited := Next32(rateLimited);
        fates := fates + [Limited];
      } else {
        PassAnswers(View(), r, acks);
        handed := PassLine(r, acks);
        fates := fates + [Passed(r)];
      }
    }

    method TakeFiltered(r: Record, now: uint32, acks: Acks) returns (handed: seq<bool>)
      requires Valid()
      modifies this`sent, this`failed, this`rateLimited, this`wire, this`fates, filter
      ensures Valid() && View() == Filtered(old(View()), r, now as int, acks)
      ensures handed == Answers(wire[|old(wire)|..])
    {
      ghost var was := View();
      ghost var c := TB.Check(filter.View(), r.level, now as int);
      var d := filter.CheckLine(r.level, now);
      assert d == c.1 && View() == was.(output := was.output.(filter := c.0));
      FilteredBy(was, r, now as int, acks, c);
      handed := Decided(d, r, acks);
    }

    /** The body of the loop of deliver(). */
    method Take(r: Record, now: uint32, acks: Acks) returns (handed: seq<bool>)
      requires Valid()
      modifies this`sent, this`failed, this`rateLimited, this`notReady, this`wire, this`fates, filter
      ensures Valid() && View() == Deliver(old(View()), r, now as int, acks)
      ensures handed == Answers(wire[|old(wire)|..])
    {
      handed := [];
      if !enabled || (!r.notice && tag != "" && tag <= r.msg) {
        fates := fates + [Skipped];
      } else if !ready {
        notReady := Next32(notReady);
        fates := fates + [NotReady];
      } else if r.notice {
        Send(Line(r), acks.line);
        handed := [acks.line];
        fates := fates + [Noticed(r)];
      } else {
        handed := TakeFiltered(r, now, acks);
      }
    }

    method SetReady(b: bool)
      requires Valid()
      modifies this`ready
      ensures Valid() && View() == Step(old(View()), Readiness(b))
    {
      ready := b;
    }
  }

  /** The turns one output gets in the first n steps of deliver(); an output added twice gets two. */
  ghost function Turns(t: Track, o: OutputBox, outputs: seq<OutputBox>, n: nat, r: Record, now: nat, acks: seq<Acks>):
    (u: Track)
    requires t.output.Valid() && n <= |outputs| == |acks|
    ensures u.output.Valid()
  {
    if n == 0 then t
    else
      var before := Turns(t, o, outputs, n - 1, r, now, acks);
      if outputs[n - 1] == o then Deliver(before, r, now, acks[n - 1]) else before
  }

  ghost predicate Once(outputs: seq<OutputBox>, i: nat) {
    i < |outputs| && forall k :: 0 <= k < |outputs| && k != i ==> outputs[k] != outputs[i]
  }

  /** An output that was added once takes the record once. */
  lemma {:induction false} OneTurn(t: Track, i: nat, outputs: seq<OutputBox>, n: nat, r: Record, now: nat,
                                   acks: seq<Acks>)
    requires t.output.Valid() && n <= |outputs| == |acks| && Once(outputs, i)
    ensures Turns(t, outputs[i], outputs, n, r, now, acks) == if i < n then Deliver(t, r, now, acks[i]) else t
    decreases n
  {
    if n > 0 {
      OneTurn(t, i, outputs, n - 1, r, now, acks);
    }
  }

  class LogFanout {
    var outputs: seq<OutputBox>

    /** Each output has a filter of its own; the same output may be there more than once. */
    ghost predicate Valid()
      reads this, outputs, set o <- outputs :: o.filter
    {
      && |outputs| <= 4
      && (forall o <- outputs :: o.Valid())
      && (forall o <- outputs, p <- outputs :: o != p ==> o.filter != p.filter)
    }

    constructor ()
      ensures Valid() && outputs == []
    {
      outputs := [];
    }

    /** add() */
    method Add(o: OutputBox?) returns (added: bool)
      requires Valid() && (o != null ==> o.Valid() && forall p <- outputs :: p != o ==> p.filter != o.filter)
      modifies this
      ensures Valid() && added == (o != null && |old(outputs)| < 4)
      ensures outputs == if added then old(outputs) + [o] else old(outputs)
    {
      added := o != null && |outputs| < 4;
      if added {
        outputs := outputs + [o];
      }
    }

    method TakeAt(i: nat, r: Record, now: uint32, acks: Acks)
      requires Valid() && i < |outputs|
      modifies outputs[i], outputs[i].filter
      ensures Valid() && outputs[i].View() == Deliver(old(outputs[i].View()), r, now as int, acks)
      ensures forall o <- outputs :: o != outputs[i] ==> o.View() == old(o.View())
    {
      var _ := outputs[i].Take(r, now, acks);
    }

    /** deliver(): each output takes the record by itself, whatever the others do with it. */
    method DeliverAll(r: Record, now: uint32, acks: seq<Acks>)
      requires Valid() && |acks| == |outputs|
      modifies outputs, set o <- outputs :: o.filter
      ensures Valid()
      ensures forall o <- outputs :: o.View() == Turns(old(o.View()), o, outputs, |outputs|, r, now as int, acks)
    {
      var i := 0;
      while i < |outputs|
        invariant 0 <= i <= |outputs|
        invariant Valid()
        invariant forall o <- outputs :: o.View() == Turns(old(o.View()), o, outputs, i, r, now as int, acks)
      {
        TakeAt(i, r, now, acks[i]);
        i := i + 1;
      }
    }

    /** shouldHold() */
    method ShouldHold(now: uint32) returns (hold: bool)
      requires Valid()
      ensures hold <==> exists o <- outputs :: Holds(o.View().output, o.enabledAt as int, now as int)
    {
      for i := 0 to |outputs|
        invariant forall k :: 0 <= k < i ==> !Holds(outputs[k].View().output, outputs[k].enabledAt as int, now as int)
      {
        if outputs[i].enabled && !outputs[i].ready && Signed32(now as int, outputs[i].enabledAt as int) < HOLD_MS {
          assert Holds(outputs[i].View().output, outputs[i].enabledAt as int, now as int);
          return true;
        }
      }
      return false;
    }
  }
}
