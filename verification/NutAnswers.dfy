/**
 What the NUT server answers (lib/NUTServer/src/NUTServer.cpp) to each line after any run, by the words of the
 line and what was sent on the session before, and what each event does to the slots.
 */
module NutAnswers {
  import opened Prelude
  import opened NutSessions
  import NutTokens
  import NutVariables

  // ----- What a session has sent, read off the facts alone -----

  /** The last of these facts about the slot since its connection was opened or closed; none otherwise. */
  predicate SentName(facts: seq<Fact>, slot: nat)
    decreases |facts|
  {
    facts != [] && !Boundary(facts[|facts| - 1], slot) &&
      ((facts[|facts| - 1].UsernameSent? && facts[|facts| - 1].slot == slot) || SentName(facts[..|facts| - 1], slot))
  }

  predicate SentPassword(facts: seq<Fact>, slot: nat)
    decreases |facts|
  {
    facts != [] && !Boundary(facts[|facts| - 1], slot) &&
      ((facts[|facts| - 1].PasswordSent? && facts[|facts| - 1].slot == slot)
       || SentPassword(facts[..|facts| - 1], slot))
  }

  /** The slot's connection was opened and not closed since. */
  predicate IsOpen(facts: seq<Fact>, slot: nat)
    decreases |facts|
  {
    facts != [] &&
      (facts[|facts| - 1] == Opened(slot)
       || (facts[|facts| - 1] != Closed(slot) && IsOpen(facts[..|facts| - 1], slot)))
  }

  lemma FlagsAfter(facts: seq<Fact>, f: Fact, slot: nat)
    ensures SentName(facts + [f], slot) <==>
      !Boundary(f, slot) && ((f.UsernameSent? && f.slot == slot) || SentName(facts, slot))
    ensures SentPassword(facts + [f], slot) <==>
      !Boundary(f, slot) && ((f.PasswordSent? && f.slot == slot) || SentPassword(facts, slot))
    ensures IsOpen(facts + [f], slot) <==> f == Opened(slot) || (f != Closed(slot) && IsOpen(facts, slot))
  {
    assert (facts + [f])[..|facts|] == facts;
  }

  ghost predicate Flags(s: Session, facts: seq<Fact>, slot: nat) {
    && (s.usernameSet <==> SentName(facts, slot))
    && (s.passwordSet <==> SentPassword(facts, slot))
    && (s.active <==> IsOpen(facts, slot))
  }

  lemma {:induction false} OthersKeepFlags(s: Session, facts: seq<Fact>, more: seq<Fact>, slot: nat)
    requires Flags(s, facts, slot) && forall f <- more :: f.slot != slot
    ensures Flags(s, facts + more, slot)
    decreases |more|
  {
    if more == [] {
      assert facts + more == facts;
    } else {
      var front, f := more[..|more| - 1], more[|more| - 1];
      OthersKeepFlags(s, facts, front, slot);
      assert facts + more == (facts + front) + [f] && f in more;
      FlagsAfter(facts + front, f, slot);
    }
  }

  lemma TwoFacts(facts: seq<Fact>, a: Fact, b: Fact)
    ensures facts + [a, b] == (facts + [a]) + [b]
  {
  }

  lemma OwnKeepsFlags(c: Config, s: Session, facts: seq<Fact>, slot: nat, o: Outcome)
    requires Flags(s, facts, slot) && Shaped(c, s, slot, o)
    ensures Flags(o.session, facts + o.facts, slot)
  {
    if |o.facts| == 0 {
      assert facts + o.facts == facts;
    } else if |o.facts| == 1 {
      assert o.facts == [o.facts[0]];
      FlagsAfter(facts, o.facts[0], slot);
    } else {
      var a, b := o.facts[0], o.facts[1];
      assert o.facts == [a, b] && a in o.facts && b in o.facts;
      FlagsAfter(facts, a, slot);
      FlagsAfter(facts + [a], b, slot);
      TwoFacts(facts, a, b);
    }
  }

  ghost predicate AllFlags(v: Server) {
    v.Valid() && forall n :: 0 <= n < MAX_CLIENTS ==> Flags(v.sessions[n], v.facts, n)
  }

  lemma StepKeepsFlags(v: Server, e: Event)
    requires AllFlags(v)
    ensures AllFlags(Step(v, e))
  {
    var slot, u := SlotOf(v, e), Step(v, e);
    var more := StepAdds(v, e);
    if slot < MAX_CLIENTS {
      forall n | 0 <= n < MAX_CLIENTS ensures Flags(u.sessions[n], u.facts, n) {
        assert Flags(v.sessions[n], v.facts, n);
        if n != slot {
          OthersKeepFlags(v.sessions[n], v.facts, more, n);
        } else if e.Line? {
          var w := NutTokens.Split(e.line);
          ProcessShape(v.config, v.sessions[n], n, w, e.ups);
          OwnKeepsFlags(v.config, v.sessions[n], v.facts, n, Process(v.config, v.sessions[n], n, w, e.ups));
        } else {
          FlagsAfter(v.facts, more[0], n);
        }
      }
    }
  }

  lemma {:induction false} RunKeepsFlags(c: Config, events: seq<Event>)
    ensures AllFlags(Run(c, events))
    decreases |events|
  {
    if events != [] {
      RunKeepsFlags(c, events[..|events| - 1]);
      StepKeepsFlags(Run(c, events[..|events| - 1]), events[|events| - 1]);
    }
  }

  /** What the server remembers of a slot is what its session sent. */
  lemma RemembersWhatWasSent(c: Config, events: seq<Event>, slot: nat)
    requires slot < MAX_CLIENTS
    ensures var v := Run(c, events);
      && (v.sessions[slot].usernameSet <==> SentName(v.facts, slot))
      && (v.sessions[slot].passwordSet <==> SentPassword(v.facts, slot))
      && (v.sessions[slot].active <==> IsOpen(v.facts, slot))
  {
    RunKeepsFlags(c, events);
    assert Flags(Run(c, events).sessions[slot], Run(c, events).facts, slot);
  }

  // ----- Connections -----

  /** A slot a new client may take: not open, or its client is gone. */
  predicate Takes(facts: seq<Fact>, connected: seq<bool>, i: nat) {
    !IsOpen(facts, i) || (i < |connected| && !connected[i])
  }

  lemma RunOne(c: Config, events: seq<Event>, e: Event)
    ensures Run(c, events + [e]) == Step(Run(c, events), e)
  {
    assert (events + [e])[..|events|] == events;
  }

  /** A new client gets the first of the eight slots that is free, and nothing when none is. */
  lemma ConnectExactly(c: Config, events: seq<Event>, connected: seq<bool>, slot: nat)
    requires slot < 8 && Takes(Run(c, events).facts, connected, slot)
    requires forall i :: 0 <= i < slot ==> !Takes(Run(c, events).facts, connected, i)
    ensures var v, u := Run(c, events), Run(c, events + [Connect(connected)]);
      && u.facts == v.facts + [Opened(slot)]
      && u.sessions[slot] == Session(true, false, "", false, false, false)
      && forall n :: 0 <= n < 8 && n != slot ==> u.sessions[n] == v.sessions[n]
  {
    RunOne(c, events, Connect(connected));
    var v := Run(c, events);
    forall i | 0 <= i < 8 ensures FreeSlot(v.sessions[i], connected, i) <==> Takes(v.facts, connected, i) {
      RemembersWhatWasSent(c, events, i);
    }
    assert FirstFree(v.sessions, connected, 0) == slot;
  }

  lemma NoneFree(c: Config, events: seq<Event>, connected: seq<bool>)
    requires forall i :: 0 <= i < 8 ==> !Takes(Run(c, events).facts, connected, i)
    ensures Run(c, events + [Connect(connected)]) == Run(c, events)
  {
    RunOne(c, events, Connect(connected));
    var v := Run(c, events);
    var slot := FirstFree(v.sessions, connected, 0);
    if slot < 8 {
      RemembersWhatWasSent(c, events, slot);
      assert Takes(v.facts, connected, slot);
    }
  }

  // ----- Lines -----

  /** What the line adds after the run. */
  function Answer(c: Config, events: seq<Event>, slot: nat, line: string, ups: Ups): (r: seq<Fact>)
    requires slot < MAX_CLIENTS
  {
    Added(Run(c, events), slot, line, ups)
  }

  lemma AnswerIs(c: Config, events: seq<Event>, slot: nat, line: string, ups: Ups) returns (o: Outcome)
    requires slot < MAX_CLIENTS
    ensures o == Process(c, Run(c, events).sessions[slot], slot, NutTokens.Split(line), ups)
    ensures Answer(c, events, slot, line, ups) == o.facts
    ensures Run(c, events + [Line(slot, line, ups)]).sessions[slot] == o.session
  {
    o := Process(c, Run(c, events).sessions[slot], slot, NutTokens.Split(line), ups);
    AddedByProcess(Run(c, events), slot, line, ups);
    RunOne(c, events, Line(slot, line, ups));
  }

  lemma NoWords(c: Config, events: seq<Event>, slot: nat, line: string, ups: Ups)
    requires slot < MAX_CLIENTS && NutTokens.Split(line) == []
    ensures Answer(c, events, slot, line, ups) == []
  {
    var o := AnswerIs(c, events, slot, line, ups);
  }

  lemma SetVariableCloses(c: Config, s: Session, slot: nat, name: string, variable: string, value: string, ups: Ups)
    ensures forall f <- SetVariable(c, s, slot, name, variable, value, ups).facts :: f.Replied? || f.VariableSet?
  {
    var reply := SetVariableForm(c, s, slot, name, variable, value, ups);
  }

  lemma SetOnlyWrites(c: Config, s: Session, slot: nat, w: seq<string>, ups: Ups)
    ensures forall f <- SetCmd(c, s, slot, w, ups).facts :: f.Replied? || f.VariableSet?
  {
    if |w| >= 5 && SetCommandOf(w[1]) == SetVar {
      SetVariableCloses(c, s, slot, w[2], w[3], w[4], ups);
    }
  }

  lemma InstcmdOnlyRuns(c: Config, s: Session, slot: nat, w: seq<string>, ups: Ups)
    ensures forall f <- Instcmd(c, s, slot, w, ups).facts :: f.Replied? || f.CommandExecuted?
  {
  }

  lemma OnlyLogoutCloses(c: Config, s: Session, slot: nat, w: seq<string>, ups: Ups)
    requires w != [] && VerbOf(w[0]) != LOGOUT
    ensures forall f <- Process(c, s, slot, w, ups).facts :: !f.Closed? && !f.Opened?
    ensures VerbOf(w[0]) != USERNAME ==> forall f <- Process(c, s, slot, w, ups).facts :: !f.UsernameSent?
    ensures VerbOf(w[0]) != PASSWORD ==> forall f <- Process(c, s, slot, w, ups).facts :: !f.PasswordSent?
  {
    SetOnlyWrites(c, s, slot, w, ups);
    InstcmdOnlyRuns(c, s, slot, w, ups);
  }

  /** A line closes its slot if and only if its first word is LOGOUT, in any case; the answer is OK Goodbye. */
  lemma LogoutCloses(c: Config, events: seq<Event>, slot: nat, line: string, ups: Ups)
    requires slot < MAX_CLIENTS
    ensures var w := NutTokens.Split(line);
      Closed(slot) in Answer(c, events, slot, line, ups) <==> w != [] && Upper(w[0]) == "LOGOUT"
    ensures var w := NutTokens.Split(line);
      w != [] && Upper(w[0]) == "LOGOUT" ==>
        && Answer(c, events, slot, line, ups) == [Replied(slot, OkGoodbye), Closed(slot)]
        && !Run(c, events + [Line(slot, line, ups)]).sessions[slot].active
  {
    var w := NutTokens.Split(line);
    var o := AnswerIs(c, events, slot, line, ups);
    if w != [] {
      WordsOfVerbs(w[0]);
      if VerbOf(w[0]) == LOGOUT {
        assert o.facts[1] == Closed(slot);
      } else {
        OnlyLogoutCloses(c, Run(c, events).sessions[slot], slot, w, ups);
      }
    }
  }

  /** A line sends a name if and only if it is USERNAME with an argument; it is answered OK. */
  lemma UsernameSends(c: Config, events: seq<Event>, slot: nat, line: string, ups: Ups, name: string)
    requires slot < MAX_CLIENTS
    ensures var w := NutTokens.Split(line);
      UsernameSent(slot, name) in Answer(c, events, slot, line, ups) <==>
        |w| >= 2 && Upper(w[0]) == "USERNAME" && w[1] == name
    ensures var w := NutTokens.Split(line);
      w != [] && Upper(w[0]) == "USERNAME" ==>
        Answer(c, events, slot, line, ups) ==
          if |w| < 2 then [Replied(slot, Err(InvalidArgument))] else [UsernameSent(slot, w[1]), Replied(slot, Ok)]
  {
    var w := NutTokens.Split(line);
    var o := AnswerIs(c, events, slot, line, ups);
    if w != [] {
      WordsOfVerbs(w[0]);
      if VerbOf(w[0]) == USERNAME {
        assert |w| >= 2 ==> o.facts[0] == UsernameSent(slot, w[1]);
      } else if VerbOf(w[0]) != LOGOUT {
        OnlyLogoutCloses(c, Run(c, events).sessions[slot], slot, w, ups);
      }
    }
  }

  lemma NameIsLast(c: Config, events: seq<Event>, slot: nat)
    requires slot < MAX_CLIENTS
    ensures Run(c, events).sessions[slot].username == LastUsername(Run(c, events).facts, slot)
  {
    NutSessions.RunOk(c, events);
    assert SessionOk(c, Run(c, events).sessions[slot], Run(c, events).facts, slot);
  }

  /**
   A line sends a password if and only if it is PASSWORD with an argument; it is answered OK exactly for the
   configured password after the configured name, and ACCESS-DENIED otherwise.
   */
  lemma PasswordSends(c: Config, events: seq<Event>, slot: nat, line: string, ups: Ups, password: string)
    requires slot < MAX_CLIENTS
    ensures var w := NutTokens.Split(line);
      (exists ok :: PasswordSent(slot, password, ok) in Answer(c, events, slot, line, ups)) <==>
        |w| >= 2 && Upper(w[0]) == "PASSWORD" && w[1] == password
    ensures var w := NutTokens.Split(line);
      w != [] && Upper(w[0]) == "PASSWORD" ==>
        Answer(c, events, slot, line, ups) ==
          if |w| < 2 then [Replied(slot, Err(InvalidArgument))]
          else if LastUsername(Run(c, events).facts, slot) == c.username && w[1] == c.password then
            [PasswordSent(slot, w[1], true), Replied(slot, Ok)]
          else [PasswordSent(slot, w[1], false), Replied(slot, Err(AccessDenied))]
  {
    var w := NutTokens.Split(line);
    var s := Run(c, events).sessions[slot];
    var o := AnswerIs(c, events, slot, line, ups);
    NameIsLast(c, events, slot);
    if w != [] {
      WordsOfVerbs(w[0]);
      if VerbOf(w[0]) == PASSWORD {
        assert |w| >= 2 ==> o.facts[0] == PasswordSent(slot, w[1], s.username == c.username && w[1] == c.password);
      } else if VerbOf(w[0]) != LOGOUT {
        OnlyLogoutCloses(c, s, slot, w, ups);
      }
    }
  }

  /** The credentials a command needs, in the order they are asked for. */
  lemma MissingFirst(c: Config, events: seq<Event>, slot: nat, line: string, ups: Ups)
    requires slot < MAX_CLIENTS
    requires var w := NutTokens.Split(line); w != [] && Upper(w[0]) in {"LOGIN", "SET", "INSTCMD"}
    ensures var facts, a := Run(c, events).facts, Answer(c, events, slot, line, ups);
      c.username != "" && c.password != "" ==>
        && (!SentName(facts, slot) ==> a == [Replied(slot, Err(UsernameRequired))])
        && (SentName(facts, slot) && !SentPassword(facts, slot) ==> a == [Replied(slot, Err(PasswordRequired))])
  {
    var w := NutTokens.Split(line);
    var o := AnswerIs(c, events, slot, line, ups);
    RemembersWhatWasSent(c, events, slot);
    WordsOfVerbs(w[0]);
  }

  /** No credentials are configured, or both were sent on this session. */
  ghost predicate Complete(c: Config, facts: seq<Fact>, slot: nat) {
    c.username != "" && c.password != "" ==> SentName(facts, slot) && SentPassword(facts, slot)
  }

  lemma CompleteMissesNothing(c: Config, events: seq<Event>, slot: nat)
    requires slot < MAX_CLIENTS
    ensures Complete(c, Run(c, events).facts, slot) <==> Missing(c, Run(c, events).sessions[slot]).None?
    ensures c.AuthRequired() && !Run(c, events).sessions[slot].authenticated <==>
      !Entitled(c, Run(c, events).facts, slot)
  {
    RemembersWhatWasSent(c, events, slot);
    AuthenticatedExactlyWhenGranted(c, events, slot);
  }

  /** LOGIN: the argument, the name of the UPS, the grant, and nothing else. */
  lemma LoginAnswers(c: Config, events: seq<Event>, slot: nat, line: string, ups: Ups)
    requires slot < MAX_CLIENTS && Complete(c, Run(c, events).facts, slot)
    requires var w := NutTokens.Split(line); w != [] && Upper(w[0]) == "LOGIN"
    ensures var w, a := NutTokens.Split(line), Answer(c, events, slot, line, ups);
      a == [Replied(slot,
              if |w| < 2 then Err(InvalidArgument)
              else if !ForThisUps(c, w[1]) then Err(UnknownUps)
              else if !Entitled(c, Run(c, events).facts, slot) then Err(AccessDenied)
              else Ok)]
    ensures Run(c, events + [Line(slot, line, ups)]).sessions[slot] == Run(c, events).sessions[slot]
  {
    var w := NutTokens.Split(line);
    var o := AnswerIs(c, events, slot, line, ups);
    CompleteMissesNothing(c, events, slot);
    WordsOfVerbs(w[0]);
  }

  /** The answer to a command that ran; with TRACKING its outcome is only looked up later. */
  function RanReply(result: CommandResult, tracking: bool): (r: Reply) {
    match (result, tracking)
    case (NotSupported, _) => Err(CmdNotSupported)
    case (NotConnected, _) => Err(DriverNotConnected)
    case (_, true) => OkTracking
    case (Done, false) => Ok
    case (CommandFailed, false) => Err(InstcmdFailed)
    case (BadArgument, false) => Err(InvalidArgument)
  }

  /** INSTCMD: the grant first, then the arguments, the name and the UPS; then the command runs once. */
  lemma InstcmdAnswers(c: Config, events: seq<Event>, slot: nat, line: string, ups: Ups)
    requires slot < MAX_CLIENTS && Complete(c, Run(c, events).facts, slot)
    requires var w := NutTokens.Split(line); w != [] && Upper(w[0]) == "INSTCMD"
    ensures var w, a := NutTokens.Split(line), Answer(c, events, slot, line, ups);
      if !Entitled(c, Run(c, events).facts, slot) then a == [Replied(slot, Err(AccessDenied))]
      else if |w| < 3 then a == [Replied(slot, Err(InvalidArgument))]
      else if !ForThisUps(c, w[1]) then a == [Replied(slot, Err(UnknownUps))]
      else if !ups.attached then a == [Replied(slot, Err(DriverNotConnected))]
      else a == [CommandExecuted(slot, w[2]),
                 Replied(slot, RanReply(ups.result, Run(c, events).sessions[slot].tracking))]
  {
    var w := NutTokens.Split(line);
    var o := AnswerIs(c, events, slot, line, ups);
    CompleteMissesNothing(c, events, slot);
    WordsOfVerbs(w[0]);
  }

  /** What checkSetValue() finds wrong with a value. */
  function Refusal(check: SetCheck): (r: Option<Error>) {
    match check
    case NotWritable => Some(ReadOnly)
    case InvalidAux => Some(SetFailed)
    case ValueTooLong => Some(TooLong)
    case ValueInvalid => Some(InvalidValue)
    case CheckOk(_) => None
  }

  /** The first thing that is wrong with a SET VAR, if any. */
  ghost function SetRefused(c: Config, facts: seq<Fact>, slot: nat, w: seq<string>, ups: Ups): (r: Option<Error>)
    requires |w| >= 5
  {
    if !ForThisUps(c, w[2]) then Some(UnknownUps)
    else if !(ups.attached && ups.connected) then Some(DriverNotConnected)
    else if ups.stale then Some(DataStale)
    else if !Entitled(c, facts, slot) then Some(AccessDenied)
    else if NutVariables.Resolve(ups.data, ups.overrides, ups.status, NutVariables.Lower(w[3])).None? then
      Some(VarNotSupported)
    else if exists o <- ups.overrides :: NutVariables.Lower(o.key) == NutVariables.Lower(w[3]) then Some(ReadOnly)
    else Refusal(ups.check)
  }

  lemma SetReaches(c: Config, s: Session, slot: nat, w: seq<string>, ups: Ups)
    requires |w| >= 5 && VerbOf(w[0]) == SET && SetCommandOf(w[1]) == SetVar && Missing(c, s).None?
    ensures Process(c, s, slot, w, ups) == SetVariable(c, s, slot, w[2], w[3], w[4], ups)
  {
  }

  /** The answer to a SET VAR: the refusal, or the write and what came of it. */
  function SetAnswer(slot: nat, refused: Option<Error>, value: string, ups: Ups, tracking: bool): (r: seq<Fact>)
    requires refused.None? ==> ups.check.CheckOk?
  {
    if refused.Some? then [Replied(slot, Err(refused.value))]
    else [VariableSet(slot, ups.check.name, value),
          Replied(slot, if tracking then OkTracking else if ups.written then Ok else Err(SetFailed))]
  }

  lemma FoundOverride(list: seq<NutVariables.Override>, name: string)
    ensures NutVariables.Find(list, name).Some? <==>
      exists o <- list :: NutVariables.Lower(o.key) == NutVariables.Lower(name)
  {
  }

  lemma SetVariableAnswers(c: Config, s: Session, facts: seq<Fact>, slot: nat, w: seq<string>, ups: Ups)
    requires |w| >= 5 && (c.AuthRequired() && !s.authenticated <==> !Entitled(c, facts, slot))
    ensures var refused := SetRefused(c, facts, slot, w, ups);
      && (refused.None? ==> ups.check.CheckOk?)
      && SetVariable(c, s, slot, w[2], w[3], w[4], ups).facts == SetAnswer(slot, refused, w[4], ups, s.tracking)
  {
    FoundOverride(ups.overrides, w[3]);
  }

  /** SET VAR: refused for the first thing that is wrong; otherwise the variable is written once. */
  lemma SetVarAnswers(c: Config, events: seq<Event>, slot: nat, line: string, ups: Ups)
    requires slot < MAX_CLIENTS && Complete(c, Run(c, events).facts, slot)
    requires AsksSetVar(NutTokens.Split(line))
    ensures var w, a := NutTokens.Split(line), Answer(c, events, slot, line, ups);
      && (|w| < 5 ==> a == [Replied(slot, Err(InvalidArgument))])
      && (|w| >= 5 ==>
            var refused := SetRefused(c, Run(c, events).facts, slot, w, ups);
            && (refused.None? ==> ups.check.CheckOk?)
            && a == SetAnswer(slot, refused, w[4], ups, Run(c, events).sessions[slot].tracking))
  {
    var w := NutTokens.Split(line);
    var o := AnswerIs(c, events, slot, line, ups);
    CompleteMissesNothing(c, events, slot);
    WordsOfVerbs(w[0]);
    WordsOfVerbs(w[1]);
    if |w| >= 5 {
      SetReaches(c, Run(c, events).sessions[slot], slot, w, ups);
      SetVariableAnswers(c, Run(c, events).sessions[slot], Run(c, events).facts, slot, w, ups);
    }
  }

  /** SET TRACKING takes ON and OFF, in any case; any other SET is refused. */
  lemma TrackingAnswers(c: Config, events: seq<Event>, slot: nat, line: string, ups: Ups)
    requires slot < MAX_CLIENTS && Complete(c, Run(c, events).facts, slot)
    requires var w := NutTokens.Split(line); |w| >= 1 && Upper(w[0]) == "SET" && !AsksSetVar(w)
    ensures var w, a := NutTokens.Split(line), Answer(c, events, slot, line, ups);
      var u := Run(c, events + [Line(slot, line, ups)]).sessions[slot];
      if |w| >= 3 && Upper(w[1]) == "TRACKING" && Upper(w[2]) in {"ON", "OFF"} then
        a == [Replied(slot, Ok)] && u == Run(c, events).sessions[slot].(tracking := Upper(w[2]) == "ON")
      else a == [Replied(slot, Err(InvalidArgument))] && u == Run(c, events).sessions[slot]
  {
    var w := NutTokens.Split(line);
    var o := AnswerIs(c, events, slot, line, ups);
    CompleteMissesNothing(c, events, slot);
    WordsOfVerbs(w[0]);
    if |w| >= 2 {
      WordsOfVerbs(w[1]);
    }
    assert |"ON"| == 2 && |"OFF"| == 3;
  }

  lemma SetVariableTracks(c: Config, s: Session, slot: nat, name: string, variable: string, value: string, ups: Ups)
    ensures SetVariable(c, s, slot, name, variable, value, ups).session == s
  {
    var reply := SetVariableForm(c, s, slot, name, variable, value, ups);
  }

  lemma ProcessTracks(c: Config, s: Session, slot: nat, w: seq<string>, ups: Ups)
    requires w == [] || VerbOf(w[0]) != LOGOUT
    requires |w| < 3 || VerbOf(w[0]) != SET || SetCommandOf(w[1]) != SetTracking
    ensures Process(c, s, slot, w, ups).session.tracking == s.tracking
  {
    if |w| >= 5 && VerbOf(w[0]) == SET && SetCommandOf(w[1]) == SetVar {
      SetVariableTracks(c, s, slot, w[2], w[3], w[4], ups);
    }
  }

  /** Only SET TRACKING and the end of the session change whether it tracks. */
  lemma OthersKeepTracking(c: Config, events: seq<Event>, slot: nat, line: string, ups: Ups)
    requires slot < MAX_CLIENTS
    requires var w := NutTokens.Split(line);
      w == [] || (Upper(w[0]) != "LOGOUT" && !(|w| >= 3 && Upper(w[0]) == "SET" && Upper(w[1]) == "TRACKING"))
    ensures Run(c, events + [Line(slot, line, ups)]).sessions[slot].tracking == Run(c, events).sessions[slot].tracking
  {
    var w := NutTokens.Split(line);
    var o := AnswerIs(c, events, slot, line, ups);
    if w != [] {
      WordsOfVerbs(w[0]);
    }
    if |w| >= 2 {
      WordsOfVerbs(w[1]);
    }
    ProcessTracks(c, Run(c, events).sessions[slot], slot, w, ups);
  }

  lemma ReadingWords(word: string)
    requires Upper(word) !in {"USERNAME", "PASSWORD", "LOGIN", "LOGOUT", "INSTCMD", "SET"}
    ensures VerbOf(word) == if Upper(word) == "LIST" then LIST else if Upper(word) == "GET" then GET
                            else if Upper(word) in {"VER", "NETVER"} then INFO else UNKNOWN
  {
  }

  lemma OtherLines(c: Config, s: Session, slot: nat, w: seq<string>, ups: Ups)
    requires w != [] && VerbOf(w[0]) in {LIST, GET, INFO, UNKNOWN}
    ensures Process(c, s, slot, w, ups) ==
      Outcome(s, [Replied(slot, if VerbOf(w[0]) == UNKNOWN then Err(UnknownCommand) else Text)])
  {
  }

  /** LIST, GET, VER and NETVER only read; a word that is no command is refused. */
  lemma OtherAnswers(c: Config, events: seq<Event>, slot: nat, line: string, ups: Ups)
    requires slot < MAX_CLIENTS
    requires var w := NutTokens.Split(line);
      w != [] && Upper(w[0]) !in {"USERNAME", "PASSWORD", "LOGIN", "LOGOUT", "INSTCMD", "SET"}
    ensures var w := NutTokens.Split(line);
      Answer(c, events, slot, line, ups) ==
        [Replied(slot, if Upper(w[0]) in {"LIST", "GET", "VER", "NETVER"} then Text else Err(UnknownCommand))]
    ensures Run(c, events + [Line(slot, line, ups)]).sessions[slot] == Run(c, events).sessions[slot]
  {
    var w := NutTokens.Split(line);
    var o := AnswerIs(c, events, slot, line, ups);
    ReadingWords(w[0]);
    OtherLines(c, Run(c, events).sessions[slot], slot, w, ups);
  }
}
