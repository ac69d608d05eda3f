/**
 The way of a log line from the logger to the log task: the ring of the System Log page
 (src/core/app_logger.cpp), the bounded queue and the counting of what it loses (src/core/log_dispatcher.cpp).
 */
module LogQueue {
  import opened Prelude
  import TB = TokenBucket
  import Fanout

  const QUEUE_LENGTH: nat := 40
  const RECORD_MSG: nat := 240

  /** logLevelOf() */
  function LevelOf(name: string): (r: TB.Level) {
    var n := Upper(CStr(name));
    if n == "WARN" || n == "WARNING" then TB.WARN else if n == "ERROR" then TB.ERROR else TB.INFO
  }

  datatype LogLine = LogLine(time: nat, level: string, msg: string, notice: bool)

  /** The record submit() copies into the queue: the message cut to the buffer. */
  function RecordOf(l: LogLine): (r: Fanout.Record)
    ensures |r.msg| < RECORD_MSG && r.msg <= CStr(l.msg)
    ensures |CStr(l.msg)| < RECORD_MSG ==> r.msg == CStr(l.msg)
  {
    Fanout.Record(l.time, LevelOf(l.level), l.notice, CStr(l.msg)[..Min(|CStr(l.msg)|, RECORD_MSG - 1)])
  }

  /** The record has the line's time, notice and level, by its name in any case, and at most 239 of its characters. */
  lemma RecordExactly(l: LogLine)
    ensures RecordOf(l).uptime == l.time && RecordOf(l).notice == l.notice
    ensures RecordOf(l).level == (if Upper(CStr(l.level)) == "ERROR" then TB.ERROR
                                  else if Upper(CStr(l.level)) in {"WARN", "WARNING"} then TB.WARN else TB.INFO)
    ensures RecordOf(l).msg == CStr(l.msg)[..Min(|CStr(l.msg)|, 239)]
  {
    assert |"ERROR"| == 5 && |"WARN"| == 4 && |"WARNING"| == 7;
  }

  /** What the log task gives to the outputs: a line from the queue, or a count of lost ones. */
  datatype Given = Written(record: Fanout.Record) | Lost(count: nat)

  /** The queue and its counters, with every line written to it, whether it was kept, and what came out. */
  datatype Queue = Queue(items: seq<Fanout.Record>, drops: nat, reported: nat,
                         written: seq<Fanout.Record>, kept: seq<bool>, given: seq<Given>) {
    predicate Valid() {
      |items| <= QUEUE_LENGTH && drops < TWO_32 && reported < TWO_32
    }

    function Unreported(): (r: nat) {
      (drops - reported) % 0x1_0000_0000
    }
  }

  datatype Event = Submit(record: Fanout.Record) | Report | Receive

  const EMPTY: Queue := Queue([], 0, 0, [], [], [])

  function Step(q: Queue, e: Event): (r: Queue)
    requires q.Valid()
    ensures r.Valid() && q.written <= r.written && q.given <= r.given
  {
    match e
    case Submit(record) =>
      if |q.items| < QUEUE_LENGTH then
        q.(items := q.items + [record], written := q.written + [record], kept := q.kept + [true])
      else q.(drops := Wrap32(q.drops + 1), written := q.written + [record], kept := q.kept + [false])
    case Report =>
      if q.drops == q.reported then q
      else q.(reported := q.drops, given := q.given + [Lost(q.Unreported())])
    case Receive =>
      if q.items == [] then q
      else q.(items := q.items[1..], given := q.given + [Written(q.items[0])])
  }

  function Run(events: seq<Event>): (q: Queue)
    ensures q.Valid()
    decreases |events|
  {
    if events == [] then EMPTY else Step(Run(events[..|events| - 1]), events[|events| - 1])
  }

  // ----- Conservation -----

  function Refused(flags: seq<bool>): (r: nat) {
    if flags == [] then 0 else Refused(flags[..|flags| - 1]) + if flags[|flags| - 1] then 0 else 1
  }

  /** The lines whose flag is set, in order. */
  function Chosen(lines: seq<Fanout.Record>, flags: seq<bool>): (r: seq<Fanout.Record>)
    requires |lines| == |flags|
    ensures |r| + Refused(flags) == |lines|
  {
    if lines == [] then []
    else
      var n := |lines| - 1;
      Chosen(lines[..n], flags[..n]) + if flags[n] then [lines[n]] else []
  }

  function LinesOf(given: seq<Given>): (r: seq<Fanout.Record>) {
    if given == [] then []
    else
      var g := given[|given| - 1];
      LinesOf(given[..|given| - 1]) + if g.Written? then [g.record] else []
  }

  function LossesOf(given: seq<Given>): (r: nat) {
    if given == [] then 0
    else
      var g := given[|given| - 1];
      LossesOf(given[..|given| - 1]) + if g.Lost? then g.count else 0
  }

  ghost predicate Conserved(q: Queue) {
    |q.written| == |q.kept| && Chosen(q.written, q.kept) == LinesOf(q.given) + q.items
  }

  ghost predicate Counted(q: Queue) {
    && q.drops == Wrap32(Refused(q.kept))
    && q.reported == Wrap32(LossesOf(q.given))
  }

  ghost predicate Exact(q: Queue) {
    Refused(q.kept) < TWO_32 ==> q.reported == LossesOf(q.given) <= q.drops
  }

  ghost predicate Positive(q: Queue) {
    forall g <- q.given :: g.Lost? ==> 0 < g.count < TWO_32
  }

  ghost predicate Invariant(q: Queue) {
    q.Valid() && Conserved(q) && Counted(q) && Exact(q) && Positive(q)
  }

  lemma GivenAfter(given: seq<Given>, g: Given)
    ensures LinesOf(given + [g]) == LinesOf(given) + if g.Written? then [g.record] else []
    ensures LossesOf(given + [g]) == LossesOf(given) + if g.Lost? then g.count else 0
  {
    assert (given + [g])[..|given|] == given;
  }

  lemma WrittenAfter(q: Queue, r: Fanout.Record, flag: bool)
    requires |q.written| == |q.kept|
    ensures Chosen(q.written + [r], q.kept + [flag]) == Chosen(q.written, q.kept) + if flag then [r] else []
    ensures Refused(q.kept + [flag]) == Refused(q.kept) + if flag then 0 else 1
  {
    var n := |q.written|;
    assert (q.written + [r])[..n] == q.written && (q.kept + [flag])[..n] == q.kept;
  }

  lemma SubmitConserves(q: Queue, r: Fanout.Record)
    requires q.Valid() && Conserved(q)
    ensures Conserved(Step(q, Submit(r)))
  {
    WrittenAfter(q, r, |q.items| < QUEUE_LENGTH);
    assert (LinesOf(q.given) + q.items) + [r] == LinesOf(q.given) + (q.items + [r]);
  }

  lemma DropCounted(q: Queue, r: Fanout.Record)
    requires q.Valid() && Counted(q) && Exact(q) && |q.items| >= QUEUE_LENGTH
    requires Refused(q.kept + [false]) == Refused(q.kept) + 1
    ensures Counted(Step(q, Submit(r))) && Exact(Step(q, Submit(r)))
  {
    WrapSucc(Refused(q.kept));
  }

  lemma SubmitOk(q: Queue, r: Fanout.Record)
    requires Invariant(q)
    ensures Invariant(Step(q, Submit(r)))
  {
    WrittenAfter(q, r, |q.items| < QUEUE_LENGTH);
    SubmitConserves(q, r);
    if |q.items| >= QUEUE_LENGTH {
      DropCounted(q, r);
    }
  }

  /** Counting on by the wrapping difference reaches the other counter. */
  lemma CatchUp(total: nat, drops: nat)
    requires drops < TWO_32
    ensures Wrap32(total + (drops - Wrap32(total)) % 0x1_0000_0000) == drops
    ensures total <= drops ==> total + (drops - Wrap32(total)) % 0x1_0000_0000 == drops
  {
  }

  lemma ReportOk(q: Queue)
    requires Invariant(q)
    ensures Invariant(Step(q, Report))
  {
    if q.drops != q.reported {
      GivenAfter(q.given, Lost(q.Unreported()));
      CatchUp(LossesOf(q.given), q.drops);
    }
  }

  lemma ReceiveOk(q: Queue)
    requires Invariant(q)
    ensures Invariant(Step(q, Receive))
  {
    if q.items != [] {
      GivenAfter(q.given, Written(q.items[0]));
      assert LinesOf(q.given) + q.items == (LinesOf(q.given) + [q.items[0]]) + q.items[1..];
    }
  }

  lemma {:induction false} RunOk(events: seq<Event>)
    ensures Invariant(Run(events))
    decreases |events|
  {
    if events == [] {
      assert Chosen([], []) == [] && LinesOf([]) == [];
    } else {
      var q := Run(events[..|events| - 1]);
      RunOk(events[..|events| - 1]);
      match events[|events| - 1] {
        case Submit(r) => SubmitOk(q, r);
        case Report => ReportOk(q);
        case Receive => ReceiveOk(q);
      }
    }
  }

  /**
   No line is lost uncounted or reordered: at every moment the lines written are those handed to the outputs
   followed by those in the queue, in the order they were written, and the drops. The queue is never longer
   than 40.
   */
  lemma LinesAreConserved(events: seq<Event>)
    ensures var q := Run(events);
      && |q.written| == |q.kept| && |q.items| <= 40
      && LinesOf(q.given) + q.items == Chosen(q.written, q.kept)
      && |q.written| == |LinesOf(q.given)| + |q.items| + Refused(q.kept)
      && q.drops == Wrap32(Refused(q.kept))
  {
    RunOk(events);
  }

  ghost predicate Reported(q: Queue) {
    Wrap32(LossesOf(q.given) + q.Unreported()) == q.drops == Wrap32(Refused(q.kept))
  }

  lemma LossesModulo(q: Queue)
    requires q.Valid() && Counted(q)
    ensures Reported(q)
  {
    CatchUp(LossesOf(q.given), q.drops);
  }

  /** The counts in the "lines lost" records and the unreported difference are the drops, modulo 2^32. */
  lemma LossesAreReported(events: seq<Event>)
    ensures Positive(Run(events)) && Reported(Run(events))
  {
    RunOk(events);
    LossesModulo(Run(events));
  }

  lemma DifferenceExact(q: Queue)
    requires q.Valid() && Counted(q) && Exact(q) && Refused(q.kept) < TWO_32
    ensures LossesOf(q.given) + q.Unreported() == Refused(q.kept)
  {
    WrapSmall(Refused(q.kept));
    WrapSmall(q.drops - q.reported);
  }

  /** Below 2^32 drops they are the drops exactly. */
  lemma LossesAreExact(events: seq<Event>)
    requires Refused(Run(events).kept) < TWO_32
    ensures var q := Run(events); LossesOf(q.given) + q.Unreported() == Refused(q.kept)
  {
    RunOk(events);
    DifferenceExact(Run(events));
  }

  /** A line is refused exactly while 40 kept lines have not been handed over, whatever came before. */
  lemma RefusedExactlyWhenFull(events: seq<Event>, r: Fanout.Record)
    ensures var q := Run(events); var u := Step(q, Submit(r));
      && |q.written| == |q.kept|
      && u.written == q.written + [r] && |u.kept| == |q.kept| + 1 && u.kept[..|q.kept|] == q.kept
      && (!u.kept[|q.kept|] <==> |Chosen(q.written, q.kept)| - |LinesOf(q.given)| == 40)
  {
    RunOk(events);
  }

  // ----- The queue in place -----

  /** One more step of a run. */
  lemma RunStep(events: seq<Event>, e: Event)
    ensures Run(events + [e]) == Step(Run(events), e)
  {
    assert (events + [e])[..|events|] == events;
  }

  class LogDispatcher {
    var items: seq<Fanout.Record>
    var drops: uint32
    var reported: uint32
    ghost var written: seq<Fanout.Record>
    ghost var kept: seq<bool>
    ghost var given: seq<Given>
    /** The calls so far: what holds of every run holds of the queue. */
    ghost var events: seq<Event>

    ghost function View(): (r: Queue)
      reads this
    {
      Queue(items, drops as int, reported as int, written, kept, given)
    }

    ghost predicate Valid()
      reads this
    {
      View() == Run(events)
    }

    constructor ()
      ensures Valid() && View() == EMPTY
    {
      items, drops, reported := [], 0, 0;
      written, kept, given, events := [], [], [], [];
    }

    /** xQueueSend() without waiting. */
    method Push(r: Fanout.Record)
      requires |items| <= QUEUE_LENGTH
      modifies this`items, this`drops, this`written, this`kept
      ensures View() == Step(old(View()), Submit(r))
    {
      written := written + [r];
      if |items| < QUEUE_LENGTH {
        items := items + [r];
        kept := kept + [true];
      } else {
        drops := Next32(drops);
        kept := kept + [false];
      }
    }

    method SubmitRecord(r: Fanout.Record)
      requires Valid()
      modifies this
      ensures Valid() && View() == Step(old(View()), Submit(r))
    {
      RunStep(events, Submit(r));
      assert |items| <= QUEUE_LENGTH;
      events := events + [Submit(r)];
      Push(r);
    }

    /** submit() */
    method SubmitLine(l: LogLine)
      requires Valid()
      modifies this
      ensures Valid() && View() == Step(old(View()), Submit(RecordOf(l)))
    {
      SubmitRecord(RecordOf(l));
    }

    method CatchUpDrops() returns (lost: Option<uint32>)
      requires View().Valid()
      modifies this`reported, this`given
      ensures View() == Step(old(View()), Report)
      ensures lost.None? <==> old(drops == reported)
      ensures lost.Some? ==> lost.value as int == old(View()).Unreported()
    {
      var now := drops;
      if now == reported {
        return None;
      }
      var n := Minus32(now, reported);
      reported := now;
      given := given + [Lost(n as int)];
      return Some(n);
    }

    /** The first half of a round of run(): the count of lost lines to deliver, if any. */
    method ReportDrops() returns (lost: Option<uint32>)
      requires Valid()
      modifies this`reported, this`given, this`events
      ensures Valid() && View() == Step(old(View()), Report)
      ensures lost.None? <==> old(drops == reported)
      ensures lost.Some? ==> lost.value as int == old(View()).Unreported()
    {
      RunStep(events, Report);
      events := events + [Report];
      lost := CatchUpDrops();
    }

    /** The second half: the oldest line in the queue. */
    method ReceiveLine() returns (r: Option<Fanout.Record>)
      requires Valid()
      modifies this`items, this`given, this`events
      ensures Valid() && View() == Step(old(View()), Receive)
      ensures r == if old(items) == [] then None else Some(old(items)[0])
    {
      RunStep(events, Receive);
      events := events + [Receive];
      if items == [] {
        return None;
      }
      r := Some(items[0]);
      given := given + [Written(items[0])];
      items := items[1..];
    }
  }

  // ----- The ring of the System Log page -----

  const MAX_LOGS: nat := 50

  datatype Entry = Entry(id: nat, line: LogLine)

  /** What the page shows after these lines: the last 50, oldest first, numbered from 1 modulo 2^32. */
  function LastLines(lines: seq<LogLine>): (r: seq<Entry>)
    ensures |r| == Min(|lines|, MAX_LOGS)
  {
    var first := |lines| - Min(|lines|, MAX_LOGS);
    seq(|lines| - first, i requires 0 <= i < |lines| - first => Entry(Wrap32(first + i + 1), lines[first + i]))
  }

  /** The page has the last 50 lines, or all of fewer; its i-th is so many lines before the end. */
  lemma PageIsTheLastFifty(lines: seq<LogLine>, i: nat)
    requires i < |lines| && i < 50
    ensures var n := if |lines| < 50 then |lines| else 50;
      && |LastLines(lines)| == n && LastLines(lines)[n - 1 - i].line == lines[|lines| - 1 - i]
  {
  }

  lemma NearbyDiffer(a: nat, b: nat)
    requires a < b < a + TWO_32
    ensures Wrap32(a) != Wrap32(b)
  {
  }

  /** The ids on the page are consecutive, and below the wrap they are the positions of the lines. */
  lemma PageIdsAreConsecutive(lines: seq<LogLine>)
    ensures var page := LastLines(lines);
      && (forall i :: 0 < i < |page| ==> page[i].id == Wrap32(page[i - 1].id + 1))
      && (forall i, j :: 0 <= i < j < |page| ==> page[i].id != page[j].id)
      && (|lines| < TWO_32 - 1 ==> forall i :: 0 <= i < |page| ==> page[i].id == |lines| - |page| + i + 1)
  {
    var page := LastLines(lines);
    var first := |lines| - |page|;
    forall i | 0 < i < |page| ensures page[i].id == Wrap32(page[i - 1].id + 1) {
      WrapSucc(first + i);
    }
    forall i, j | 0 <= i < j < |page| ensures page[i].id != page[j].id {
      NearbyDiffer(first + i + 1, first + j + 1);
    }
    if |lines| < TWO_32 - 1 {
      forall i | 0 <= i < |page| ensures page[i].id == first + i + 1 {
        WrapSmall(first + i + 1);
      }
    }
  }

  function Records(lines: seq<LogLine>): (r: seq<Fanout.Record>)
    ensures |r| == |lines| && forall i :: 0 <= i < |r| ==> r[i] == RecordOf(lines[i])
  {
    seq(|lines|, i requires 0 <= i < |lines| => RecordOf(lines[i]))
  }

  lemma NextSlot(n: nat)
    ensures (n % MAX_LOGS + 1) % MAX_LOGS == (n + 1) % MAX_LOGS
  {
  }

  lemma OtherSlot(k: nat, n: nat)
    requires k < n < k + MAX_LOGS
    ensures k % MAX_LOGS != n % MAX_LOGS
  {
  }

  /** Where the i-th line of the page is, from the start index the page uses. */
  lemma PageSlot(n: nat, count: nat, i: nat)
    requires count == Min(n, MAX_LOGS) && i < count
    ensures ((if count < MAX_LOGS then 0 else n % MAX_LOGS) + i) % MAX_LOGS == (n - count + i) % MAX_LOGS
  {
  }

  class AppLogger {
    const buffer: array<Entry>
    var head: nat
    var count: nat
    var nextId: uint32
    var forwarder: LogDispatcher?
    /** Every line logged so far, and how many of them before the forwarder was set. */
    ghost var lines: seq<LogLine>
    ghost var before: nat

    ghost predicate RingValid()
      reads this, buffer
    {
      && buffer.Length == MAX_LOGS
      && head == |lines| % MAX_LOGS && count == Min(|lines|, MAX_LOGS)
      && nextId as int == Wrap32(|lines| + 1)
      && forall k :: |lines| - count <= k < |lines| ==> buffer[k % MAX_LOGS] == Entry(Wrap32(k + 1), lines[k])
    }

    ghost predicate Valid()
      reads this, buffer, forwarder
    {
      && RingValid() && before <= |lines|
      && (forwarder != null ==> forwarder.Valid() && forwarder.written == Records(lines[before..]))
    }

    constructor ()
      ensures Valid() && fresh(buffer) && lines == [] && forwarder == null
    {
      buffer := new Entry[MAX_LOGS](_ => Entry(0, LogLine(0, "", "", false)));
      head, count, nextId, forwarder := 0, 0, 1, null;
      lines, before := [], 0;
    }

    method SetForwarder(d: LogDispatcher)
      requires RingValid() && d.Valid() && d.written == []
      modifies this`forwarder, this`before
      ensures Valid() && forwarder == d && before == |lines|
    {
      forwarder, before := d, |lines|;
    }

    /** The ring holds the line under the next id. */
    method Keep(l: LogLine)
      requires RingValid()
      modifies this`head, this`count, this`nextId, this`lines, buffer
      ensures RingValid() && lines == old(lines) + [l]
    {
      var n := |lines|;
      buffer[head] := Entry(nextId as int, l);
      nextId := Next32(nextId);
      head := (head + 1) % MAX_LOGS;
      if count < MAX_LOGS {
        count := count + 1;
      }
      lines := lines + [l];
      WrapSucc(n + 1);
      NextSlot(n);
      forall k | n + 1 - count <= k < n + 1
        ensures buffer[k % MAX_LOGS] == Entry(Wrap32(k + 1), lines[k])
      {
        if k < n {
          OtherSlot(k, n);
        }
      }
    }

    /** write(): into the ring and, once there is a forwarder, to the queue. */
    method Write(l: LogLine)
      requires Valid()
      modifies this, buffer, forwarder
      ensures Valid() && lines == old(lines) + [l] && forwarder == old(forwarder) && before == old(before)
      ensures forwarder != null ==> forwarder.View() == Step(old(forwarder.View()), Submit(RecordOf(l)))
    {
      Keep(l);
      if forwarder != null {
        forwarder.SubmitLine(l);
        assert lines[before..] == old(lines)[before..] + [l];
      }
    }

    /** getLogsJSON(), without the JSON. */
    method Read() returns (page: seq<Entry>)
      requires RingValid()
      ensures page == LastLines(lines)
    {
      var start := if count < MAX_LOGS then 0 else head;
      page := [];
      for i := 0 to count
        invariant page == LastLines(lines)[..i]
      {
        var idx := (start + i) % MAX_LOGS;
        PageSlot(|lines|, count, i);
        page := page + [buffer[idx]];
      }
    }
  }
}
