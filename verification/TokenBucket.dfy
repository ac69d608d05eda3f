/**
 The rate limit of one log output (lib/LogCore/src/LogOutputFilter.h): a token bucket refilled lazily, on
 a millisecond clock that wraps modulo 2^32, and the average rate it keeps in unbounded time.
 */
module TokenBucket {
  import opened Prelude

  datatype Level = INFO | WARN | ERROR {
    function Rank(): (r: nat) {
      if INFO? then 0 else if WARN? then 1 else 2
    }
  }

  /** INFO below WARN below ERROR. */
  lemma LevelsInOrder(a: Level, b: Level)
    ensures a.Rank() < b.Rank() <==> (a.INFO? && !b.INFO?) || (a.WARN? && b.ERROR?)
  {
  }

  datatype Decision = SEND | BELOW_LEVEL | RATE_LIMITED

  const MIN_RATE: nat := 1
  const MAX_RATE: nat := 100

  /** Four seconds of traffic, at least 20 lines. */
  function Burst(rate: nat): (r: nat) {
    if rate * 4 < 20 then 20 else rate * 4
  }

  function Cap(rate: nat): (r: nat) {
    Burst(rate) * 1000
  }

  function ClampRate(rate: nat): (r: nat)
    ensures MIN_RATE <= r <= MAX_RATE
  {
    if rate < MIN_RATE then MIN_RATE else if rate > MAX_RATE then MAX_RATE else rate
  }

  datatype Bucket = Bucket(minLevel: Level, rate: nat, tokens: nat, last: nat, started: bool, suppressed: nat) {
    predicate Valid() {
      MIN_RATE <= rate <= MAX_RATE && tokens <= Cap(rate) && last < TWO_32 && suppressed < TWO_32
    }

    /** The clock value kept is that of the real time t. */
    predicate LastAt(t: nat) {
      started && last == t % 0x1_0000_0000
    }
  }

  /** The bucket of a filter that was just configured: full; lines already refused stay counted. */
  function Configured(level: Level, rate: nat, suppressed: nat): (b: Bucket)
    requires suppressed < TWO_32
    ensures b.Valid()
  {
    Bucket(level, ClampRate(rate), Cap(ClampRate(rate)), 0, false, suppressed)
  }

  function Refill(b: Bucket, now: nat): (r: Bucket)
    requires b.Valid() && now < TWO_32
    ensures r.Valid() && r.started && r.last == now
  {
    if !b.started then b.(started := true, last := now)
    else b.(last := now, tokens := Min(Cap(b.rate), b.tokens + (now - b.last) % 0x1_0000_0000 * b.rate))
  }

  function Check(b: Bucket, level: Level, now: nat): (r: (Bucket, Decision))
    requires b.Valid() && now < TWO_32
    ensures r.0.Valid() && r.0.minLevel == b.minLevel && r.0.rate == b.rate
  {
    if level.Rank() < b.minLevel.Rank() then (b, BELOW_LEVEL)
    else
      var f := Refill(b, now);
      if f.tokens < 1000 then (f.(suppressed := Wrap32(f.suppressed + 1)), RATE_LIMITED)
      else (f.(tokens := f.tokens - 1000), SEND)
  }

  // ----- Runs between two configurations, in real time -----

  /** A line offered at a real time in ms, or the count of refused lines taken. */
  datatype Event = Line(level: Level, time: nat) | Take

  function Step(b: Bucket, e: Event): (r: Bucket)
    requires b.Valid()
    ensures r.Valid() && r.minLevel == b.minLevel && r.rate == b.rate
  {
    match e
    case Line(level, time) => Check(b, level, time % 0x1_0000_0000).0
    case Take => b.(suppressed := 0)
  }

  function Decide(b: Bucket, e: Event): (r: Option<Decision>)
    requires b.Valid()
  {
    match e
    case Line(level, time) => Some(Check(b, level, time % 0x1_0000_0000).1)
    case Take => None
  }

  function After(b: Bucket, events: seq<Event>): (r: Bucket)
    requires b.Valid()
    ensures r.Valid() && r.minLevel == b.minLevel && r.rate == b.rate
    decreases |events|
  {
    if events == [] then b else After(Step(b, events[0]), events[1..])
  }

  function Decisions(b: Bucket, events: seq<Event>): (r: seq<Option<Decision>>)
    requires b.Valid()
    ensures |r| == |events|
    decreases |events|
  {
    if events == [] then [] else [Decide(b, events[0])] + Decisions(Step(b, events[0]), events[1..])
  }

  function Sends(decisions: seq<Option<Decision>>): (r: nat) {
    if decisions == [] then 0 else (if decisions[0] == Some(SEND) then 1 else 0) + Sends(decisions[1..])
  }

  /** The lines come in the order of time, none before from and none after to. */
  predicate Ordered(events: seq<Event>, from: nat, to: nat) {
    from <= to && (events == [] ||
      match events[0]
      case Line(_, time) => from <= time && Ordered(events[1..], time, to)
      case Take => Ordered(events[1..], from, to))
  }

  // ----- The average rate -----

  lemma ModAdd(a: int, k: int)
    ensures (k * TWO_32 + a) % 0x1_0000_0000 == a % 0x1_0000_0000
  {
  }

  /** The wrapping difference of two clock readings is the real one modulo 2^32. */
  lemma Elapsed(seen: nat, t: nat)
    requires seen <= t
    ensures (t % 0x1_0000_0000 - seen % 0x1_0000_0000) % 0x1_0000_0000 == (t - seen) % 0x1_0000_0000 <= t - seen
  {
    var k := t / TWO_32 - seen / TWO_32;
    assert t - seen == k * TWO_32 + (t % 0x1_0000_0000 - seen % 0x1_0000_0000);
    ModAdd(t % 0x1_0000_0000 - seen % 0x1_0000_0000, k);
  }

  lemma Monotone(x: nat, y: nat, rate: nat)
    requires x <= y
    ensures x * rate <= y * rate
  {
  }

  /** No clock reading refills more than the real time since the last one. */
  lemma RefillAtMostRealTime(b: Bucket, seen: nat, t: nat)
    requires b.Valid() && b.LastAt(seen) && seen <= t
    ensures Refill(b, t % 0x1_0000_0000).tokens <= b.tokens + (t - seen) * b.rate
    ensures Refill(b, t % 0x1_0000_0000).LastAt(t)
  {
    Elapsed(seen, t);
    Monotone((t - seen) % 0x1_0000_0000, t - seen, b.rate);
  }

  /** The milli-tokens of ms milliseconds, counted one by one. */
  function Gain(rate: nat, ms: nat): (r: nat) {
    if ms == 0 then 0 else Gain(rate, ms - 1) + rate
  }

  lemma {:induction false} GainIs(rate: nat, ms: nat)
    ensures Gain(rate, ms) == ms * rate == rate * ms
    decreases ms
  {
    if ms > 0 {
      GainIs(rate, ms - 1);
      assert ms * rate == (ms - 1) * rate + rate;
    }
  }

  lemma {:induction false} GainAdds(rate: nat, x: nat, y: nat)
    ensures Gain(rate, x + y) == Gain(rate, x) + Gain(rate, y)
    decreases y
  {
    if y > 0 {
      GainAdds(rate, x, y - 1);
    }
  }

  lemma RefillAtMostGain(b: Bucket, seen: nat, t: nat)
    requires b.Valid() && b.LastAt(seen) && seen <= t
    ensures Refill(b, t % 0x1_0000_0000).tokens <= b.tokens + Gain(b.rate, t - seen)
  {
    RefillAtMostRealTime(b, seen, t);
    GainIs(b.rate, t - seen);
  }

  /** A line, the tokens it finds and those it leaves. */
  lemma LineFound(b: Bucket, e: Event)
    requires b.Valid() && e.Line? && e.level.Rank() >= b.minLevel.Rank()
    ensures var f := Refill(b, e.time % 0x1_0000_0000);
      && f.tokens <= Cap(b.rate)
      && Step(b, e).tokens + 1000 * (if Decide(b, e) == Some(SEND) then 1 else 0) == f.tokens
      && Step(b, e).LastAt(e.time)
  {
  }

  lemma FirstSend(b: Bucket, events: seq<Event>)
    requires b.Valid() && events != []
    ensures Sends(Decisions(b, events)) ==
      (if Decide(b, events[0]) == Some(SEND) then 1 else 0) + Sends(Decisions(Step(b, events[0]), events[1..]))
  {
  }

  lemma OrderedEnds(events: seq<Event>, from: nat, to: nat)
    requires Ordered(events, from, to)
    ensures from <= to
  {
  }

  lemma LaterStart(events: seq<Event>, early: nat, from: nat, to: nat)
    requires early <= from && Ordered(events, from, to)
    ensures Ordered(events, early, to)
  {
    if events != [] && events[0].Take? {
      LaterStart(events[1..], early, from, to);
    }
  }

  /** What is sent from now on is covered by the tokens there and the time to come. */
  lemma {:induction false} SendsCovered(b: Bucket, events: seq<Event>, seen: nat, to: nat)
    requires b.Valid() && b.LastAt(seen) && Ordered(events, seen, to)
    ensures 1000 * Sends(Decisions(b, events)) <= b.tokens + Gain(b.rate, to - seen)
    decreases |events|
  {
    if events != [] {
      var e := events[0];
      FirstSend(b, events);
      if e.Line? && e.level.Rank() >= b.minLevel.Rank() {
        OrderedEnds(events[1..], e.time, to);
        RefillAtMostGain(b, seen, e.time);
        LineFound(b, e);
        SendsCovered(Step(b, e), events[1..], e.time, to);
        GainAdds(b.rate, e.time - seen, to - e.time);
      } else if e.Line? {
        LaterStart(events[1..], seen, e.time, to);
        SendsCovered(b, events[1..], seen, to);
      } else {
        SendsCovered(Step(b, e), events[1..], seen, to);
      }
    }
  }

  /** From any state of the filter, even one whose last reading is many wraps old. */
  lemma {:induction false} WindowSends(b: Bucket, events: seq<Event>, from: nat, to: nat)
    requires b.Valid() && Ordered(events, from, to)
    ensures 1000 * Sends(Decisions(b, events)) <= Cap(b.rate) + Gain(b.rate, to - from)
    decreases |events|
  {
    if events != [] {
      var e := events[0];
      FirstSend(b, events);
      if e.Line? && e.level.Rank() >= b.minLevel.Rank() {
        OrderedEnds(events[1..], e.time, to);
        LineFound(b, e);
        SendsCovered(Step(b, e), events[1..], e.time, to);
        GainAdds(b.rate, e.time - from, to - e.time);
      } else if e.Line? {
        LaterStart(events[1..], from, e.time, to);
        WindowSends(b, events[1..], from, to);
      } else {
        WindowSends(Step(b, e), events[1..], from, to);
      }
    }
  }

  lemma PerSecond(sends: nat, burst: nat, milli: nat)
    requires 1000 * sends <= burst * 1000 + milli
    ensures sends <= burst + milli / 1000
  {
  }

  lemma WindowAverage(b: Bucket, window: seq<Event>, from: nat, to: nat)
    requires b.Valid() && Ordered(window, from, to)
    ensures Sends(Decisions(b, window)) <= Burst(b.rate) + b.rate * (to - from) / 1000
  {
    OrderedEnds(window, from, to);
    WindowSends(b, window, from, to);
    GainIs(b.rate, to - from);
    PerSecond(Sends(Decisions(b, window)), Burst(b.rate), b.rate * (to - from));
  }

  /**
   In any window of a run since a configuration, however often the clock wrapped before or inside it,
   the lines let through are at most the burst and the rate times the seconds the window lasts.
   */
  lemma AverageRate(level: Level, rate: nat, suppressed: nat, before: seq<Event>, window: seq<Event>, from: nat,
                    to: nat)
    requires suppressed < TWO_32 && Ordered(window, from, to)
    ensures var b := After(Configured(level, rate, suppressed), before);
      var perSecond := if rate < 1 then 1 else if rate > 100 then 100 else rate;
      Sends(Decisions(b, window)) <= Max(20, 4 * perSecond) + perSecond * (to - from) / 1000
  {
    WindowAverage(After(Configured(level, rate, suppressed), before), window, from, to);
  }

  /** A line below the configured level, and no other, is dropped for its level, at any time of any run. */
  lemma BelowLevelExactly(level: Level, rate: nat, suppressed: nat, before: seq<Event>, line: Level, time: nat)
    requires suppressed < TWO_32
    ensures Decide(After(Configured(level, rate, suppressed), before), Line(line, time)) == Some(BELOW_LEVEL) <==>
      (line == INFO && level != INFO) || (line == WARN && level == ERROR)
  {
    LevelsInOrder(line, level);
  }

  /** So many lines at once. */
  function Repeated(line: Level, time: nat, n: nat): (r: seq<Event>)
    ensures |r| == n
  {
    if n == 0 then [] else [Line(line, time)] + Repeated(line, time, n - 1)
  }

  lemma {:induction false} AllSent(b: Bucket, line: Level, time: nat, n: nat)
    requires b.Valid() && line.Rank() >= b.minLevel.Rank() && b.tokens >= 1000 * n
    requires b.started ==> b.last == time % 0x1_0000_0000
    ensures Sends(Decisions(b, Repeated(line, time, n))) == n
    ensures var u := After(b, Repeated(line, time, n));
      n > 0 ==> u == b.(tokens := b.tokens - 1000 * n, started := true, last := time % 0x1_0000_0000)
    decreases n
  {
    if n > 0 {
      var events := Repeated(line, time, n);
      assert events[0] == Line(line, time) && events[1..] == Repeated(line, time, n - 1);
      AllSent(Step(b, events[0]), line, time, n - 1);
      FirstSend(b, events);
    }
  }

  /** Right after a configuration exactly the burst passes at once: four seconds of traffic, at least 20 lines. */
  lemma BurstPasses(level: Level, rate: nat, suppressed: nat, line: Level, time: nat)
    requires suppressed < TWO_32 && line.Rank() >= level.Rank() && 1 <= rate <= 100
    ensures var b, burst := Configured(level, rate, suppressed), Max(20, 4 * rate);
      && Sends(Decisions(b, Repeated(line, time, burst))) == burst
      && Decide(After(b, Repeated(line, time, burst)), Line(line, time)) == Some(RATE_LIMITED)
  {
    AllSent(Configured(level, rate, suppressed), line, time, Max(20, 4 * rate));
  }

  /** Lines refused since the count was last taken; n were before. */
  function Refusals(b: Bucket, events: seq<Event>, n: nat): (r: nat)
    requires b.Valid()
    decreases |events|
  {
    if events == [] then n
    else
      var e := events[0];
      Refusals(Step(b, e), events[1..],
               if e.Take? then 0 else if Decide(b, e) == Some(RATE_LIMITED) then n + 1 else n)
  }

  /** Over any run the filter holds the number of lines refused since it was last asked for it, modulo 2^32. */
  lemma {:induction false} SuppressedIsRefusals(b: Bucket, events: seq<Event>, n: nat)
    requires b.Valid() && b.suppressed == Wrap32(n)
    ensures After(b, events).suppressed == Wrap32(Refusals(b, events, n))
    decreases |events|
  {
    if events != [] {
      var e := events[0];
      var next := if e.Take? then 0 else if Decide(b, e) == Some(RATE_LIMITED) then n + 1 else n;
      WrapSucc(n);
      SuppressedIsRefusals(Step(b, e), events[1..], next);
    }
  }

  // ----- The bucket that ticks -----

  /** A bucket that gets rate milli-tokens every millisecond and is cut to its size each time. */
  function Ticks(tokens: nat, rate: nat, ms: nat): (r: nat) {
    if ms == 0 then tokens else Min(Cap(rate), Ticks(tokens, rate, ms - 1) + rate)
  }

  lemma {:induction false} TicksClosed(tokens: nat, rate: nat, ms: nat)
    requires tokens <= Cap(rate)
    ensures Ticks(tokens, rate, ms) == Min(Cap(rate), tokens + ms * rate)
  {
    if ms > 0 {
      TicksClosed(tokens, rate, ms - 1);
      assert ms * rate == (ms - 1) * rate + rate;
    }
  }

  lemma {:induction false} FullStaysFull(rate: nat, ms: nat)
    ensures Ticks(Cap(rate), rate, ms) == Cap(rate)
    decreases ms
  {
    if ms > 0 {
      FullStaysFull(rate, ms - 1);
    }
  }

  /** The decisions of the ticking bucket, which last looked at its tokens at the real time seen. */
  function TickingDecisions(level: Level, rate: nat, tokens: nat, seen: nat, events: seq<Event>):
    (r: seq<Option<Decision>>)
    ensures |r| == |events|
    decreases |events|
  {
    if events == [] then []
    else match events[0]
      case Take => [None] + TickingDecisions(level, rate, tokens, seen, events[1..])
      case Line(l, time) =>
        if l.Rank() < level.Rank() then [Some(BELOW_LEVEL)] + TickingDecisions(level, rate, tokens, seen, events[1..])
        else
          var t := Ticks(tokens, rate, if time >= seen then time - seen else 0);
          if t < 1000 then [Some(RATE_LIMITED)] + TickingDecisions(level, rate, t, time, events[1..])
          else [Some(SEND)] + TickingDecisions(level, rate, t - 1000, time, events[1..])
  }

  /** Two lines at or above the level that follow each other are less than a clock wrap apart. */
  predicate ShortGaps(level: Level, events: seq<Event>, seen: nat) {
    events == [] ||
      match events[0]
      case Take => ShortGaps(level, events[1..], seen)
      case Line(l, time) =>
        if l.Rank() < level.Rank() then ShortGaps(level, events[1..], seen)
        else time - seen < TWO_32 && ShortGaps(level, events[1..], time)
  }

  /** The gaps after the first line at or above the level. */
  predicate ShortGapsOnceStarted(level: Level, events: seq<Event>) {
    events == [] ||
      match events[0]
      case Take => ShortGapsOnceStarted(level, events[1..])
      case Line(l, time) =>
        if l.Rank() < level.Rank() then ShortGapsOnceStarted(level, events[1..])
        else ShortGaps(level, events[1..], time)
  }

  lemma AWrapFills(ms: nat, rate: nat)
    requires ms >= TWO_32 && 1 <= rate <= MAX_RATE
    ensures ms * rate >= Cap(rate)
  {
    Monotone(1, rate, ms);
  }

  lemma SameMin(cap: nat, tokens: nat, seen: nat, whole: nat, short: bool)
    requires seen <= whole && (short ==> seen == whole) && (!short ==> whole >= cap)
    ensures Min(cap, tokens + seen) == Min(cap, tokens + whole) <==> short || tokens + seen >= cap
  {
  }

  /** The milli-tokens of a gap as the clock shows it, and of the whole gap. */
  lemma Counted(rate: nat, gap: nat) returns (x: nat, y: nat)
    requires 1 <= rate <= MAX_RATE
    ensures x == gap % 0x1_0000_0000 * rate && y == gap * rate && x <= y
    ensures (gap < TWO_32 ==> x == y) && (gap >= TWO_32 ==> y >= Cap(rate))
  {
    x, y := gap % 0x1_0000_0000 * rate, gap * rate;
    Monotone(gap % 0x1_0000_0000, gap, rate);
    if gap < TWO_32 {
      assert gap % 0x1_0000_0000 == gap;
    } else {
      AWrapFills(gap, rate);
    }
  }

  lemma RefillIs(b: Bucket, seen: nat, t: nat, x: nat)
    requires b.Valid() && b.LastAt(seen) && seen <= t && x == (t - seen) % 0x1_0000_0000 * b.rate
    ensures Refill(b, t % 0x1_0000_0000).tokens == Min(Cap(b.rate), b.tokens + x)
  {
    Elapsed(seen, t);
  }

  /** One lazy refill is right exactly when the clock did not wrap since the last, or the bucket fills anyway. */
  lemma RefillAgreesExactly(b: Bucket, seen: nat, t: nat)
    requires b.Valid() && b.LastAt(seen) && seen <= t
    ensures Refill(b, t % 0x1_0000_0000).tokens == Ticks(b.tokens, b.rate, t - seen) <==>
      (t - seen < TWO_32 || b.tokens + (t - seen) % 0x1_0000_0000 * b.rate >= Cap(b.rate))
  {
    var x, y := Counted(b.rate, t - seen);
    RefillIs(b, seen, t, x);
    TicksClosed(b.tokens, b.rate, t - seen);
    SameMin(Cap(b.rate), b.tokens, x, y, t - seen < TWO_32);
  }

  /** From a state that is in step with the ticking bucket. */
  lemma {:induction false} LazyIsTickingFrom(b: Bucket, seen: nat, events: seq<Event>, to: nat)
    requires b.Valid() && b.LastAt(seen) && Ordered(events, seen, to) && ShortGaps(b.minLevel, events, seen)
    ensures Decisions(b, events) == TickingDecisions(b.minLevel, b.rate, b.tokens, seen, events)
    decreases |events|
  {
    if events != [] {
      var e := events[0];
      if e.Line? && e.level.Rank() >= b.minLevel.Rank() {
        RefillAgreesExactly(b, seen, e.time);
        LazyIsTickingFrom(Step(b, e), e.time, events[1..], to);
      } else if e.Line? {
        LaterStart(events[1..], seen, e.time, to);
        LazyIsTickingFrom(b, seen, events[1..], to);
      } else {
        LazyIsTickingFrom(Step(b, e), seen, events[1..], to);
      }
    }
  }

  /** A full bucket that has not looked at the clock yet. */
  lemma {:induction false} LazyIsTickingFull(b: Bucket, from: nat, events: seq<Event>, to: nat)
    requires b.Valid() && !b.started && b.tokens == Cap(b.rate)
    requires Ordered(events, from, to) && ShortGapsOnceStarted(b.minLevel, events)
    ensures Decisions(b, events) == TickingDecisions(b.minLevel, b.rate, b.tokens, from, events)
    decreases |events|
  {
    if events != [] {
      var e := events[0];
      if e.Line? && e.level.Rank() >= b.minLevel.Rank() {
        FullStaysFull(b.rate, e.time - from);
        LazyIsTickingFrom(Step(b, e), e.time, events[1..], to);
      } else if e.Line? {
        LaterStart(events[1..], from, e.time, to);
        LazyIsTickingFull(b, from, events[1..], to);
      } else {
        LazyIsTickingFull(Step(b, e), from, events[1..], to);
      }
    }
  }

  /** The lazy bucket decides every line of every run with short gaps as the ticking one does. */
  lemma LazyIsTicking(level: Level, rate: nat, suppressed: nat, events: seq<Event>, from: nat, to: nat)
    requires suppressed < TWO_32 && Ordered(events, from, to) && ShortGapsOnceStarted(level, events)
    ensures Decisions(Configured(level, rate, suppressed), events)
         == TickingDecisions(level, ClampRate(rate), Cap(ClampRate(rate)), from, events)
  {
    LazyIsTickingFull(Configured(level, rate, suppressed), from, events, to);
  }

  // ----- Gaps of any length -----

  /** A line at or above the level: only those look at the clock. */
  predicate Looks(b: Bucket, e: Event) {
    e.Line? && e.level.Rank() >= b.minLevel.Rank()
  }

  /** The tokens the lazy bucket finds at each line that looks. */
  function LazyTokens(b: Bucket, events: seq<Event>): (r: seq<nat>)
    requires b.Valid()
    decreases |events|
  {
    if events == [] then []
    else if Looks(b, events[0]) then
      [Refill(b, events[0].time % 0x1_0000_0000).tokens] + LazyTokens(Step(b, events[0]), events[1..])
    else LazyTokens(Step(b, events[0]), events[1..])
  }

  /** Those the ticking bucket finds. */
  function TickingTokens(level: Level, rate: nat, tokens: nat, seen: nat, events: seq<Event>): (r: seq<nat>)
    decreases |events|
  {
    if events == [] then []
    else match events[0]
      case Take => TickingTokens(level, rate, tokens, seen, events[1..])
      case Line(l, time) =>
        if l.Rank() < level.Rank() then TickingTokens(level, rate, tokens, seen, events[1..])
        else
          var t := Ticks(tokens, rate, if time >= seen then time - seen else 0);
          [t] + TickingTokens(level, rate, if t < 1000 then t else t - 1000, time, events[1..])
  }

  /** Each gap is shorter than a clock wrap, or what is seen of it fills the bucket. */
  predicate Harmless(b: Bucket, seen: nat, events: seq<Event>)
    requires b.Valid()
    decreases |events|
  {
    events == [] ||
      if Looks(b, events[0]) then
        var gap := events[0].time - seen;
        (gap < TWO_32 || b.tokens + gap % 0x1_0000_0000 * b.rate >= Cap(b.rate))
        && Harmless(Step(b, events[0]), events[0].time, events[1..])
      else Harmless(Step(b, events[0]), seen, events[1..])
  }

  lemma SameFirst(x: nat, xs: seq<nat>, y: nat, ys: seq<nat>)
    ensures [x] + xs == [y] + ys <==> x == y && xs == ys
  {
    if [x] + xs == [y] + ys {
      assert xs == ([x] + xs)[1..] && ys == ([y] + ys)[1..] && x == ([x] + xs)[0] == ([y] + ys)[0];
    }
  }

  /** Over any run the two buckets hold the same tokens at every line if and only if every gap is harmless. */
  lemma {:induction false} TokensAgreeExactly(b: Bucket, seen: nat, events: seq<Event>, to: nat)
    requires b.Valid() && b.LastAt(seen) && Ordered(events, seen, to)
    ensures LazyTokens(b, events) == TickingTokens(b.minLevel, b.rate, b.tokens, seen, events)
      <==> Harmless(b, seen, events)
    decreases |events|
  {
    if events != [] {
      var e := events[0];
      var u := Step(b, e);
      if Looks(b, e) {
        RefillAgreesExactly(b, seen, e.time);
        var mine, exact := Refill(b, e.time % 0x1_0000_0000).tokens, Ticks(b.tokens, b.rate, e.time - seen);
        var left := if exact < 1000 then exact else exact - 1000;
        var rest := TickingTokens(b.minLevel, b.rate, left, e.time, events[1..]);
        SameFirst(mine, LazyTokens(u, events[1..]), exact, rest);
        TokensAgreeExactly(u, e.time, events[1..], to);
      } else if e.Line? {
        LaterStart(events[1..], seen, e.time, to);
        TokensAgreeExactly(u, seen, events[1..], to);
      } else {
        TokensAgreeExactly(u, seen, events[1..], to);
      }
    }
  }

  /** Then they decide every line alike. */
  lemma {:induction false} HarmlessDecides(b: Bucket, seen: nat, events: seq<Event>, to: nat)
    requires b.Valid() && b.LastAt(seen) && Ordered(events, seen, to) && Harmless(b, seen, events)
    ensures Decisions(b, events) == TickingDecisions(b.minLevel, b.rate, b.tokens, seen, events)
    decreases |events|
  {
    if events != [] {
      var e := events[0];
      if Looks(b, e) {
        RefillAgreesExactly(b, seen, e.time);
        HarmlessDecides(Step(b, e), e.time, events[1..], to);
      } else if e.Line? {
        LaterStart(events[1..], seen, e.time, to);
        HarmlessDecides(b, seen, events[1..], to);
      } else {
        HarmlessDecides(Step(b, e), seen, events[1..], to);
      }
    }
  }

  /**
   One line with both buckets: ahead counts the lines only the ticking one sent so far, and the lazy one has
   at most the tokens of those more.
   */
  lemma LineKeepsAhead(b: Bucket, tick: nat, seen: nat, ahead: nat, e: Event) returns (after: nat, left: nat)
    requires b.Valid() && b.LastAt(seen) && Looks(b, e) && seen <= e.time
    requires tick <= Cap(b.rate) && b.tokens <= tick + 1000 * ahead
    ensures var t := Ticks(tick, b.rate, e.time - seen);
      && left == (if t < 1000 then t else t - 1000) && left <= Cap(b.rate)
      && Step(b, e).tokens <= left + 1000 * after
      && after + (if Decide(b, e) == Some(SEND) then 1 else 0) == ahead + (if t < 1000 then 0 else 1)
  {
    var t := Ticks(tick, b.rate, e.time - seen);
    TicksClosed(tick, b.rate, e.time - seen);
    RefillAtMostRealTime(b, seen, e.time);
    left := if t < 1000 then t else t - 1000;
    after := ahead + (if t < 1000 then 0 else 1) - if Decide(b, e) == Some(SEND) then 1 else 0;
  }

  /** Whatever the gaps, the lazy bucket never gets ahead of the ticking one. */
  lemma {:induction false} NeverAhead(b: Bucket, tick: nat, seen: nat, ahead: nat, events: seq<Event>, to: nat)
    requires b.Valid() && b.LastAt(seen) && Ordered(events, seen, to)
    requires tick <= Cap(b.rate) && b.tokens <= tick + 1000 * ahead
    ensures Sends(Decisions(b, events)) <= Sends(TickingDecisions(b.minLevel, b.rate, tick, seen, events)) + ahead
    decreases |events|
  {
    if events != [] {
      var e := events[0];
      if Looks(b, e) {
        var after, left := LineKeepsAhead(b, tick, seen, ahead, e);
        NeverAhead(Step(b, e), left, e.time, after, events[1..], to);
      } else if e.Line? {
        LaterStart(events[1..], seen, e.time, to);
        NeverAhead(b, tick, seen, ahead, events[1..], to);
      } else {
        NeverAhead(Step(b, e), tick, seen, ahead, events[1..], to);
      }
    }
  }

  lemma {:induction false} NeverAheadFull(b: Bucket, from: nat, events: seq<Event>, to: nat)
    requires b.Valid() && !b.started && b.tokens == Cap(b.rate) && Ordered(events, from, to)
    ensures Sends(Decisions(b, events)) <= Sends(TickingDecisions(b.minLevel, b.rate, b.tokens, from, events))
    decreases |events|
  {
    if events != [] {
      var e := events[0];
      if Looks(b, e) {
        FullStaysFull(b.rate, e.time - from);
        NeverAhead(Step(b, e), b.tokens - 1000, e.time, 0, events[1..], to);
      } else if e.Line? {
        LaterStart(events[1..], from, e.time, to);
        NeverAheadFull(b, from, events[1..], to);
      } else {
        NeverAheadFull(Step(b, e), from, events[1..], to);
      }
    }
  }

  /** In every run, however long the gaps, the lazy bucket lets through no more lines than the ticking one. */
  lemma LazyNeverSendsMore(level: Level, rate: nat, suppressed: nat, events: seq<Event>, from: nat, to: nat)
    requires suppressed < TWO_32 && Ordered(events, from, to)
    ensures Sends(Decisions(Configured(level, rate, suppressed), events))
         <= Sends(TickingDecisions(level, ClampRate(rate), Cap(ClampRate(rate)), from, events))
  {
    NeverAheadFull(Configured(level, rate, suppressed), from, events, to);
  }

  // ----- A silence of whole clock wraps -----

  function Repeat(e: Event, n: nat): (r: seq<Event>)
    ensures |r| == n
  {
    if n == 0 then [] else [e] + Repeat(e, n - 1)
  }

  lemma {:induction false} BurstDrains(b: Bucket, t: nat, n: nat, rest: seq<Event>)
    requires b.Valid() && b.LastAt(t) && b.tokens >= n * 1000
    ensures After(b, Repeat(Line(b.minLevel, t), n) + rest) == After(b.(tokens := b.tokens - n * 1000), rest)
    decreases n
  {
    var e := Line(b.minLevel, t);
    if n == 0 {
      assert Repeat(e, 0) + rest == rest;
    } else {
      assert (Repeat(e, n) + rest)[0] == e && (Repeat(e, n) + rest)[1..] == Repeat(e, n - 1) + rest;
      assert (t % 0x1_0000_0000 - b.last) % 0x1_0000_0000 * b.rate == 0;
      BurstDrains(Step(b, e), t, n - 1, rest);
    }
  }

  /**
   What the bound on the gaps is for: after a burst at time t, a line that comes a whole number of clock
   wraps later is refused, although the ticking bucket would be full by then.
   */
  lemma SilenceOfWholeWrapsIsUnseen(level: Level, rate: nat, t: nat, wraps: nat)
    requires wraps > 0
    ensures var b := After(Configured(level, rate, 0), Repeat(Line(level, t), Burst(ClampRate(rate))));
      && Decide(b, Line(level, t + wraps * TWO_32)) == Some(RATE_LIMITED)
      && Ticks(b.tokens, b.rate, wraps * TWO_32) == Cap(b.rate)
  {
    var full := Configured(level, rate, 0);
    var e := Line(level, t);
    var n := Burst(full.rate);
    var one := Step(full, e);
    assert Repeat(e, n)[0] == e && Repeat(e, n)[1..] == Repeat(e, n - 1) + [];
    BurstDrains(one, t, n - 1, []);
    var b := After(full, Repeat(e, n));
    assert b == one.(tokens := 0);
    ModAdd(t, wraps);
    assert (t + wraps * TWO_32) % 0x1_0000_0000 == t % 0x1_0000_0000;
    TicksClosed(0, b.rate, wraps * TWO_32);
    AWrapFills(wraps * TWO_32, b.rate);
  }

  // ----- The filter, with the widths of its fields -----

  lemma AddFits(elapsed: nat, rate: nat)
    requires elapsed < TWO_32 && rate <= MAX_RATE
    ensures elapsed * rate <= TWO_32 * MAX_RATE
  {
    Monotone(elapsed, TWO_32, rate);
    Monotone(rate, MAX_RATE, TWO_32);
  }

  class Filter {
    var minLevel: Level
    var rate: uint16
    var tokensMilli: uint32
    var lastMs: uint32
    var started: bool
    var suppressed: uint32

    ghost predicate Valid()
      reads this
    {
      MIN_RATE <= rate as int <= MAX_RATE && tokensMilli as int <= Cap(rate as int)
    }

    ghost function View(): (b: Bucket)
      requires Valid()
      reads this
      ensures b.Valid()
    {
      Bucket(minLevel, rate as int, tokensMilli as int, lastMs as int, started, suppressed as int)
    }

    constructor ()
      ensures Valid() && View() == Configured(INFO, 10, 0)
    {
      minLevel, rate, tokensMilli, lastMs, started, suppressed := INFO, 10, 40_000, 0, false, 0;
    }

    function BurstOf(): (n: uint16)
      requires rate <= 100
      reads this
      ensures n as int == Burst(rate as int)
    {
      if rate * 4 < 20 then 20 else rate * 4
    }

    method Configure(level: Level, newRate: uint16)
      modifies this
      ensures Valid() && View() == Configured(level, newRate as int, old(suppressed) as int)
    {
      var r := newRate;
      if r < 1 {
        r := 1;
      }
      if r > 100 {
        r := 100;
      }
      minLevel, rate := level, r;
      tokensMilli := BurstOf() as uint32 * 1000;
      lastMs, started := 0, false;
    }

    /** The 64-bit sum: neither the product nor the sum overflows, and the result fits 32 bits. */
    method AddTokens(elapsed: uint32)
      requires Valid()
      modifies this`tokensMilli
      ensures Valid()
      ensures tokensMilli as int == Min(Cap(rate as int), old(tokensMilli) as int + elapsed as int * rate as int)
    {
      AddFits(elapsed as int, rate as int);
      var add: uint64 := elapsed as uint64 * rate as uint64;
      var cap: uint64 := BurstOf() as uint64 * 1000;
      var t: uint64 := tokensMilli as uint64 + add;
      tokensMilli := (if t > cap then cap else t) as uint32;
    }

    method RefillTokens(now: uint32)
      requires Valid()
      modifies this
      ensures Valid() && View() == Refill(old(View()), now as int)
    {
      if !started {
        started, lastMs := true, now;
        return;
      }
      var elapsed := Minus32(now, lastMs);
      lastMs := now;
      AddTokens(elapsed);
    }

    method CheckLine(level: Level, now: uint32) returns (d: Decision)
      requires Valid()
      modifies this
      ensures Valid() && (View(), d) == Check(old(View()), level, now as int)
    {
      if level.Rank() < minLevel.Rank() {
        return BELOW_LEVEL;
      }
      RefillTokens(now);
      if tokensMilli < 1000 {
        suppressed := if suppressed == 0xFFFF_FFFF then 0 else suppressed + 1;
        return RATE_LIMITED;
      }
      tokensMilli := tokensMilli - 1000;
      return SEND;
    }

    method TakeSuppressed() returns (n: uint32)
      requires Valid()
      modifies this`suppressed
      ensures Valid() && View() == old(View()).(suppressed := 0) && n == old(suppressed)
    {
      n := suppressed;
      suppressed := 0;
    }
  }
}
