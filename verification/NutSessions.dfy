/**
 The sessions of the NUT server (lib/NUTServer/src/NUTServer.cpp): slots, credentials and the commands
 that reach the UPS.
 */
module NutSessions {
  import opened Prelude
  import NutTokens
  import NutVariables

  const MAX_CLIENTS: nat := 8

  datatype Config = Config(username: string, password: string, upsName: string) {
    /** With no credentials configured every client is allowed. */
    predicate AuthRequired() {
      username != "" && password != ""
    }
  }

  datatype Session = Session(active: bool, authenticated: bool, username: string, usernameSet: bool,
                             passwordSet: bool, tracking: bool)

  const NO_SESSION: Session := Session(false, false, "", false, false, false)

  datatype Verb = USERNAME | PASSWORD | LOGIN | LOGOUT | LIST | GET | INSTCMD | SET | INFO | UNKNOWN

  function VerbOf(word: string): (r: Verb) {
    var w := Upper(word);
    if w == "USERNAME" then USERNAME else if w == "PASSWORD" then PASSWORD
    else if w == "LOGIN" then LOGIN else if w == "LOGOUT" then LOGOUT
    else if w == "LIST" then LIST else if w == "GET" then GET
    else if w == "INSTCMD" then INSTCMD else if w == "SET" then SET
    else if w == "VER" || w == "NETVER" then INFO
    else UNKNOWN
  }

  datatype SetCommand = SetVar | SetTracking | SetOther

  function SetCommandOf(word: string): (r: SetCommand) {
    var w := Upper(word);
    if w == "VAR" then SetVar else if w == "TRACKING" then SetTracking else SetOther
  }

  lemma UpperLetters(c: char)
    ensures 'a' <= c <= 'z' ==> UpperChar(c) as int - 'A' as int == c as int - 'a' as int
    ensures !('a' <= c <= 'z') ==> UpperChar(c) == c
  {
  }

  /** Two words of the protocol that differ in length or in the character at i are different. */
  lemma WordsApart()
    ensures "LOGIN" != "LOGOUT" && "LOGIN" != "USERNAME" && "LOGIN" != "PASSWORD"
    ensures "LOGOUT" != "USERNAME" && "LOGOUT" != "PASSWORD" && "USERNAME" != "PASSWORD"
    ensures "INSTCMD" !in {"USERNAME", "PASSWORD", "LOGIN", "LOGOUT", "LIST", "GET"}
    ensures "SET" !in {"USERNAME", "PASSWORD", "LOGIN", "LOGOUT", "LIST", "GET", "INSTCMD"}
    ensures "VAR" != "TRACKING"
  {
    assert |"INSTCMD"| == 7 && |"USERNAME"| == 8 && |"PASSWORD"| == 8 && |"LOGIN"| == 5 && |"LOGOUT"| == 6;
    assert |"SET"| == 3 && "SET"[0] == 'S' && |"GET"| == 3 && "GET"[0] == 'G' && |"LIST"| == 4;
    assert "USERNAME"[0] == 'U' && "PASSWORD"[0] == 'P';
  }

  /** The words themselves, in any case. */
  lemma WordsOfVerbs(word: string)
    ensures VerbOf(word) == USERNAME <==> Upper(word) == "USERNAME"
    ensures VerbOf(word) == PASSWORD <==> Upper(word) == "PASSWORD"
    ensures VerbOf(word) == LOGIN <==> Upper(word) == "LOGIN"
    ensures VerbOf(word) == LOGOUT <==> Upper(word) == "LOGOUT"
    ensures VerbOf(word) == INSTCMD <==> Upper(word) == "INSTCMD"
    ensures VerbOf(word) == SET <==> Upper(word) == "SET"
    ensures SetCommandOf(word) == SetVar <==> Upper(word) == "VAR"
    ensures SetCommandOf(word) == SetTracking <==> Upper(word) == "TRACKING"
  {
    WordsApart();
  }

  datatype Error =
    | UsernameRequired | PasswordRequired | AccessDenied | InvalidArgument | UnknownUps | UnknownCommand
    | DriverNotConnected | DataStale | VarNotSupported | ReadOnly | SetFailed | TooLong | InvalidValue
    | CmdNotSupported | InstcmdFailed

  /** Text: the answer of a command that only reads (LIST, GET, VER, NETVER). */
  datatype Reply = Ok | OkTracking | OkGoodbye | Text | Err(error: Error)

  datatype CommandResult = Done | NotSupported | NotConnected | CommandFailed | BadArgument

  /** NutTable::checkSetValue(), with the name of the variable as the table spells it. */
  datatype SetCheck = CheckOk(name: string) | NotWritable | InvalidAux | ValueTooLong | ValueInvalid

  /** The UPS as one command finds it. */
  datatype Ups = Ups(attached: bool, connected: bool, stale: bool, data: seq<NutVariables.Param>,
                     overrides: seq<NutVariables.Override>, status: string,
                     result: CommandResult, check: SetCheck, written: bool)

  /** What happens on the connections and towards the UPS, in order. */
  datatype Fact =
    | Opened(slot: nat)
    | Closed(slot: nat)
    | UsernameSent(slot: nat, name: string)
    | PasswordSent(slot: nat, password: string, accepted: bool)
    | CommandExecuted(slot: nat, name: string)
    | VariableSet(slot: nat, name: string, value: string)
    | Replied(slot: nat, reply: Reply)

  datatype Event =
    | Connect(connected: seq<bool>)
    | Disconnect(slot: nat)
    | Line(slot: nat, line: string, ups: Ups)

  datatype Outcome = Outcome(session: Session, facts: seq<Fact>)

  /** missingCredentials() */
  function Missing(c: Config, s: Session): (r: Option<Error>) {
    if !c.AuthRequired() then None
    else if !s.usernameSet then Some(UsernameRequired)
    else if !s.passwordSet then Some(PasswordRequired)
    else None
  }

  predicate SameUps(c: Config, name: string) {
    NutVariables.Lower(name) == NutVariables.Lower(c.upsName)
  }

  function Refuse(s: Session, slot: nat, e: Error): (r: Outcome) {
    Outcome(s, [Replied(slot, Err(e))])
  }

  function Username(s: Session, slot: nat, tokens: seq<string>): (r: Outcome) {
    if |tokens| < 2 then Refuse(s, slot, InvalidArgument)
    else Outcome(s.(username := tokens[1], usernameSet := true), [UsernameSent(slot, tokens[1]), Replied(slot, Ok)])
  }

  function Password(c: Config, s: Session, slot: nat, tokens: seq<string>): (r: Outcome) {
    if |tokens| < 2 then Refuse(s, slot, InvalidArgument)
    else
      var accepted := s.username == c.username && tokens[1] == c.password;
      Outcome(s.(passwordSet := true, authenticated := s.authenticated || accepted),
              [PasswordSent(slot, tokens[1], accepted), Replied(slot, if accepted then Ok else Err(AccessDenied))])
  }

  function Login(c: Config, s: Session, slot: nat, tokens: seq<string>): (r: Outcome) {
    if |tokens| < 2 then Refuse(s, slot, InvalidArgument)
    else if !SameUps(c, tokens[1]) then Refuse(s, slot, UnknownUps)
    else if c.AuthRequired() && !s.authenticated then Refuse(s, slot, AccessDenied)
    else Outcome(s, [Replied(slot, Ok)])
  }

  function InstcmdReply(s: Session, r: CommandResult): (result: Reply) {
    match r
    case Done => if s.tracking then OkTracking else Ok
    case CommandFailed => if s.tracking then OkTracking else Err(InstcmdFailed)
    case BadArgument => if s.tracking then OkTracking else Err(InvalidArgument)
    case NotSupported => Err(CmdNotSupported)
    case NotConnected => Err(DriverNotConnected)
  }

  function Instcmd(c: Config, s: Session, slot: nat, tokens: seq<string>, ups: Ups): (r: Outcome) {
    if c.AuthRequired() && !s.authenticated then Refuse(s, slot, AccessDenied)
    else if |tokens| < 3 then Refuse(s, slot, InvalidArgument)
    else if !SameUps(c, tokens[1]) then Refuse(s, slot, UnknownUps)
    else if !ups.attached then Refuse(s, slot, DriverNotConnected)
    else Outcome(s, [CommandExecuted(slot, tokens[2]), Replied(slot, InstcmdReply(s, ups.result))])
  }

  /** setVar() */
  function SetVariable(c: Config, s: Session, slot: nat, name: string, variable: string, value: string, ups: Ups):
    (r: Outcome)
  {
    if !SameUps(c, name) then Refuse(s, slot, UnknownUps)
    else if !ups.attached || !ups.connected then Refuse(s, slot, DriverNotConnected)
    else if ups.stale then Refuse(s, slot, DataStale)
    else if c.AuthRequired() && !s.authenticated then Refuse(s, slot, AccessDenied)
    else if NutVariables.Resolve(ups.data, ups.overrides, ups.status, NutVariables.Lower(variable)).None? then
      Refuse(s, slot, VarNotSupported)
    else if NutVariables.Find(ups.overrides, variable).Some? then Refuse(s, slot, ReadOnly)
    else match ups.check
      case NotWritable => Refuse(s, slot, ReadOnly)
      case InvalidAux => Refuse(s, slot, SetFailed)
      case ValueTooLong => Refuse(s, slot, TooLong)
      case ValueInvalid => Refuse(s, slot, InvalidValue)
      case CheckOk(known) =>
        Outcome(s, [VariableSet(slot, known, value),
                    Replied(slot, if s.tracking then OkTracking else if ups.written then Ok else Err(SetFailed))])
  }

  function Tracking(s: Session, slot: nat, mode: string): (r: Outcome) {
    if Upper(mode) == "ON" then Outcome(s.(tracking := true), [Replied(slot, Ok)])
    else if Upper(mode) == "OFF" then Outcome(s.(tracking := false), [Replied(slot, Ok)])
    else Refuse(s, slot, InvalidArgument)
  }

  function SetCmd(c: Config, s: Session, slot: nat, tokens: seq<string>, ups: Ups): (r: Outcome) {
    if |tokens| < 3 then Refuse(s, slot, InvalidArgument)
    else match SetCommandOf(tokens[1])
      case SetVar =>
        if |tokens| < 5 then Refuse(s, slot, InvalidArgument)
        else SetVariable(c, s, slot, tokens[2], tokens[3], tokens[4], ups)
      case SetTracking => Tracking(s, slot, tokens[2])
      case SetOther => Refuse(s, slot, InvalidArgument)
  }

  function Dispatched(c: Config, s: Session, slot: nat, verb: Verb, tokens: seq<string>, ups: Ups): (r: Outcome) {
    match verb
    case USERNAME => Username(s, slot, tokens)
    case PASSWORD => Password(c, s, slot, tokens)
    case LOGIN => Login(c, s, slot, tokens)
    case LOGOUT => Outcome(NO_SESSION, [Replied(slot, OkGoodbye), Closed(slot)])
    case INSTCMD => Instcmd(c, s, slot, tokens, ups)
    case SET => SetCmd(c, s, slot, tokens, ups)
    case LIST => Outcome(s, [Replied(slot, Text)])
    case GET => Outcome(s, [Replied(slot, Text)])
    case INFO => Outcome(s, [Replied(slot, Text)])
    case UNKNOWN => Refuse(s, slot, UnknownCommand)
  }

  /** processCommand() on the words of a line. */
  function Process(c: Config, s: Session, slot: nat, tokens: seq<string>, ups: Ups): (r: Outcome) {
    if tokens == [] then Outcome(s, [])
    else
      var verb := VerbOf(tokens[0]);
      if verb in {LOGIN, SET, INSTCMD} && Missing(c, s).Some? then Refuse(s, slot, Missing(c, s).value)
      else Dispatched(c, s, slot, verb, tokens, ups)
  }

  // ----- All slots -----

  datatype Server = Server(config: Config, sessions: seq<Session>, facts: seq<Fact>) {
    predicate Valid() {
      |sessions| == MAX_CLIENTS
    }
  }

  function Started(c: Config): (r: Server) {
    Server(c, seq(MAX_CLIENTS, _ => NO_SESSION), [])
  }

  predicate FreeSlot(s: Session, connected: seq<bool>, i: nat) {
    !s.active || (i < |connected| && !connected[i])
  }

  /** The first free slot from i on, or the number of slots. */
  function FirstFree(sessions: seq<Session>, connected: seq<bool>, i: nat): (r: nat)
    requires i <= |sessions|
    ensures i <= r <= |sessions|
    ensures r < |sessions| ==> FreeSlot(sessions[r], connected, r)
    ensures forall k :: i <= k < r ==> !FreeSlot(sessions[k], connected, k)
    decreases |sessions| - i
  {
    if i == |sessions| || FreeSlot(sessions[i], connected, i) then i else FirstFree(sessions, connected, i + 1)
  }

  /** The slot an event is about. */
  function SlotOf(v: Server, e: Event): (r: nat) {
    match e
    case Connect(connected) => FirstFree(v.sessions, connected, 0)
    case Disconnect(slot) => slot
    case Line(slot, _, _) => slot
  }

  function Step(v: Server, e: Event): (r: Server)
    requires v.Valid()
    ensures r.Valid() && r.config == v.config && v.facts <= r.facts
  {
    match e
    case Connect(connected) =>
      var slot := FirstFree(v.sessions, connected, 0);
      if slot == MAX_CLIENTS then v
      else v.(sessions := v.sessions[slot := NO_SESSION.(active := true)], facts := v.facts + [Opened(slot)])
    case Disconnect(slot) =>
      if slot >= MAX_CLIENTS then v
      else v.(sessions := v.sessions[slot := NO_SESSION], facts := v.facts + [Closed(slot)])
    case Line(slot, line, ups) =>
      if slot >= MAX_CLIENTS then v
      else
        var o := Process(v.config, v.sessions[slot], slot, NutTokens.Split(line), ups);
        v.(sessions := v.sessions[slot := o.session], facts := v.facts + o.facts)
  }

  function Run(c: Config, events: seq<Event>): (r: Server)
    ensures r.Valid() && r.config == c
    decreases |events|
  {
    if events == [] then Started(c) else Step(Run(c, events[..|events| - 1]), events[|events| - 1])
  }

  // ----- Sessions read off the facts alone -----

  predicate Boundary(f: Fact, slot: nat) {
    f == Opened(slot) || f == Closed(slot)
  }

  /** The name last sent on the slot's current session. */
  function LastUsername(facts: seq<Fact>, slot: nat): (r: string)
    decreases |facts|
  {
    if facts == [] then ""
    else
      var f := facts[|facts| - 1];
      if Boundary(f, slot) then ""
      else if f.UsernameSent? && f.slot == slot then f.name
      else LastUsername(facts[..|facts| - 1], slot)
  }

  ghost predicate GrantAt(c: Config, facts: seq<Fact>, slot: nat, j: nat)
    requires j < |facts|
  {
    facts[j] == PasswordSent(slot, c.password, true) && LastUsername(facts[..j], slot) == c.username
  }

  /** The slot's current session got OK to PASSWORD, and with the configured name and password. */
  ghost predicate Granted(c: Config, facts: seq<Fact>, slot: nat) {
    exists j :: 0 <= j < |facts| && GrantAt(c, facts, slot, j)
      && forall k :: j < k < |facts| ==> !Boundary(facts[k], slot)
  }

  /** USERNAME and PASSWORD were both sent on the slot's current session. */
  ghost predicate BothSent(facts: seq<Fact>, slot: nat) {
    exists i, j :: 0 <= i < j < |facts| && facts[i].UsernameSent? && facts[j].PasswordSent?
      && facts[i].slot == facts[j].slot == slot && forall k :: i < k < |facts| ==> !Boundary(facts[k], slot)
  }

  ghost predicate PasswordWasSent(facts: seq<Fact>, slot: nat) {
    exists j :: 0 <= j < |facts| && facts[j].PasswordSent? && facts[j].slot == slot
      && forall k :: j < k < |facts| ==> !Boundary(facts[k], slot)
  }

  predicate TouchesUps(f: Fact) {
    f.CommandExecuted? || f.VariableSet?
  }

  ghost predicate SessionOk(c: Config, s: Session, facts: seq<Fact>, slot: nat) {
    && s.username == LastUsername(facts, slot)
    && (s.authenticated <==> Granted(c, facts, slot))
    && (s.username != "" ==> s.usernameSet)
    && (s.authenticated ==> s.passwordSet)
    && (s.authenticated && c.username != "" ==> s.usernameSet)
  }

  /** Every fact is justified by the facts before it. */
  ghost predicate FactOk(c: Config, facts: seq<Fact>, j: nat)
    requires j < |facts|
  {
    && (TouchesUps(facts[j]) && c.AuthRequired() ==> Granted(c, facts[..j], facts[j].slot))
    && (facts[j].PasswordSent? ==>
          (facts[j].accepted <==>
             LastUsername(facts[..j], facts[j].slot) == c.username && facts[j].password == c.password))
  }

  ghost predicate Invariant(v: Server) {
    && v.Valid()
    && (forall slot :: 0 <= slot < MAX_CLIENTS ==> SessionOk(v.config, v.sessions[slot], v.facts, slot))
    && (forall j :: 0 <= j < |v.facts| ==> FactOk(v.config, v.facts, j))
  }

  /** One more fact: whether a session is granted afterwards. */
  lemma GrantedAfter(c: Config, facts: seq<Fact>, f: Fact, slot: nat)
    ensures Granted(c, facts + [f], slot) <==>
      (!Boundary(f, slot) &&
       (Granted(c, facts, slot)
        || (f == PasswordSent(slot, c.password, true) && LastUsername(facts, slot) == c.username)))
  {
    var all := facts + [f];
    assert all[..|facts|] == facts;
    forall j | 0 <= j < |facts| ensures GrantAt(c, all, slot, j) <==> GrantAt(c, facts, slot, j) {
      assert all[..j] == facts[..j];
    }
    if Granted(c, facts, slot) && !Boundary(f, slot) {
      var j :| 0 <= j < |facts| && GrantAt(c, facts, slot, j)
        && forall k :: j < k < |facts| ==> !Boundary(facts[k], slot);
      assert GrantAt(c, all, slot, j) && forall k :: j < k < |all| ==> !Boundary(all[k], slot);
    }
    if !Boundary(f, slot) && f == PasswordSent(slot, c.password, true) && LastUsername(facts, slot) == c.username {
      assert GrantAt(c, all, slot, |facts|);
    }
    if Granted(c, all, slot) {
      var j :| 0 <= j < |all| && GrantAt(c, all, slot, j) && forall k :: j < k < |all| ==> !Boundary(all[k], slot);
      assert j < |facts| ==> !Boundary(all[|facts|], slot);
      assert forall k :: j < k < |facts| ==> !Boundary(all[k], slot) && all[k] == facts[k];
    }
  }

  lemma LastUsernameAfter(facts: seq<Fact>, f: Fact, slot: nat)
    ensures LastUsername(facts + [f], slot) ==
      if Boundary(f, slot) then "" else if f.UsernameSent? && f.slot == slot then f.name
      else LastUsername(facts, slot)
  {
    assert (facts + [f])[..|facts|] == facts;
  }

  lemma FactsAfter(c: Config, facts: seq<Fact>, f: Fact)
    requires forall j :: 0 <= j < |facts| ==> FactOk(c, facts, j)
    requires TouchesUps(f) && c.AuthRequired() ==> Granted(c, facts, f.slot)
    requires f.PasswordSent? ==>
      (f.accepted <==> LastUsername(facts, f.slot) == c.username && f.password == c.password)
    ensures forall j :: 0 <= j < |facts| + 1 ==> FactOk(c, facts + [f], j)
  {
    var all := facts + [f];
    forall j | 0 <= j < |all| ensures FactOk(c, all, j) {
      if j < |facts| {
        assert FactOk(c, facts, j) && all[..j] == facts[..j];
      } else {
        assert all[..j] == facts;
      }
    }
  }

  ghost predicate FactsOk(c: Config, facts: seq<Fact>) {
    forall j :: 0 <= j < |facts| ==> FactOk(c, facts, j)
  }

  /** Traffic of one slot changes neither the name nor the grant of another. */
  lemma {:induction false} OtherSlotUntouched(c: Config, facts: seq<Fact>, more: seq<Fact>, slot: nat)
    requires forall f <- more :: f.slot != slot
    ensures LastUsername(facts + more, slot) == LastUsername(facts, slot)
    ensures Granted(c, facts + more, slot) <==> Granted(c, facts, slot)
    decreases |more|
  {
    if more == [] {
      assert facts + more == facts;
    } else {
      var front, f := more[..|more| - 1], more[|more| - 1];
      OtherSlotUntouched(c, facts, front, slot);
      assert facts + more == (facts + front) + [f] && f in more;
      GrantedAfter(c, facts + front, f, slot);
      LastUsernameAfter(facts + front, f, slot);
    }
  }

  /** One fact about its own slot. */
  lemma FactKeeps(c: Config, s: Session, facts: seq<Fact>, f: Fact, s': Session)
    requires FactsOk(c, facts) && SessionOk(c, s, facts, f.slot)
    requires match f
      case Opened(_) => s' == NO_SESSION.(active := true)
      case Closed(_) => s' == NO_SESSION
      case UsernameSent(_, name) => s' == s.(username := name, usernameSet := true)
      case PasswordSent(_, pw, ok) =>
        (ok <==> s.username == c.username && pw == c.password)
        && s' == s.(passwordSet := true, authenticated := s.authenticated || ok)
      case CommandExecuted(_, _) => s' == s && (c.AuthRequired() ==> s.authenticated)
      case VariableSet(_, _, _) => s' == s && (c.AuthRequired() ==> s.authenticated)
      case Replied(_, _) => s'.(tracking := s.tracking) == s
    ensures FactsOk(c, facts + [f]) && SessionOk(c, s', facts + [f], f.slot)
  {
    GrantedAfter(c, facts, f, f.slot);
    LastUsernameAfter(facts, f, f.slot);
    FactsAfter(c, facts, f);
  }

  /** The shapes an outcome can have. */
  predicate Shaped(c: Config, s: Session, slot: nat, o: Outcome) {
    && |o.facts| <= 2 && (forall f <- o.facts :: f.slot == slot)
    && (|o.facts| == 0 ==> o.session == s)
    && (|o.facts| == 1 ==> o.facts[0].Replied? && o.session.(tracking := s.tracking) == s)
    && (|o.facts| == 2 ==>
          match o.facts[0]
          case UsernameSent(_, name) => o.session == s.(username := name, usernameSet := true) && o.facts[1].Replied?
          case PasswordSent(_, pw, ok) =>
            && (ok <==> s.username == c.username && pw == c.password)
            && o.session == s.(passwordSet := true, authenticated := s.authenticated || ok)
            && o.facts[1].Replied?
          case Replied(_, _) => o.facts[1].Closed? && o.session == NO_SESSION
          case CommandExecuted(_, _) =>
            o.session == s && (c.AuthRequired() ==> s.authenticated) && o.facts[1].Replied?
          case VariableSet(_, _, _) =>
            o.session == s && (c.AuthRequired() ==> s.authenticated) && o.facts[1].Replied?
          case _ => false)
  }

  lemma PasswordShape(c: Config, s: Session, slot: nat, tokens: seq<string>)
    ensures Shaped(c, s, slot, Password(c, s, slot, tokens)) && Shaped(c, s, slot, Username(s, slot, tokens))
    ensures Shaped(c, s, slot, Login(c, s, slot, tokens))
  {
  }

  lemma ReplyShape(c: Config, s: Session, slot: nat, reply: Reply)
    ensures Shaped(c, s, slot, Outcome(s, [])) && Shaped(c, s, slot, Outcome(s, [Replied(slot, reply)]))
    ensures Shaped(c, s, slot, Outcome(NO_SESSION, [Replied(slot, reply), Closed(slot)]))
  {
  }

  lemma InstcmdShape(c: Config, s: Session, slot: nat, tokens: seq<string>, ups: Ups)
    ensures Shaped(c, s, slot, Instcmd(c, s, slot, tokens, ups))
  {
  }

  lemma TrackingShape(c: Config, s: Session, slot: nat, mode: string)
    ensures Shaped(c, s, slot, Tracking(s, slot, mode))
  {
  }

  /** SET VAR is refused, or writes and replies. */
  lemma SetVariableForm(c: Config, s: Session, slot: nat, name: string, variable: string, value: string, ups: Ups)
    returns (reply: Reply)
    ensures var o := SetVariable(c, s, slot, name, variable, value, ups);
      || o == Outcome(s, [Replied(slot, reply)])
      || (ups.check.CheckOk? && (c.AuthRequired() ==> s.authenticated)
          && o == Outcome(s, [VariableSet(slot, ups.check.name, value), Replied(slot, reply)]))
  {
    var o := SetVariable(c, s, slot, name, variable, value, ups);
    if |o.facts| == 1 {
      reply := o.facts[0].reply;
    } else {
      reply := o.facts[1].reply;
    }
  }

  lemma WriteShape(c: Config, s: Session, slot: nat, known: string, value: string, reply: Reply)
    requires c.AuthRequired() ==> s.authenticated
    ensures Shaped(c, s, slot, Outcome(s, [VariableSet(slot, known, value), Replied(slot, reply)]))
  {
  }

  lemma SetVariableShape(c: Config, s: Session, slot: nat, name: string, variable: string, value: string, ups: Ups)
    ensures Shaped(c, s, slot, SetVariable(c, s, slot, name, variable, value, ups))
  {
    var reply := SetVariableForm(c, s, slot, name, variable, value, ups);
    ReplyShape(c, s, slot, reply);
    if ups.check.CheckOk? && (c.AuthRequired() ==> s.authenticated) {
      WriteShape(c, s, slot, ups.check.name, value, reply);
    }
  }

  lemma SetCmdShape(c: Config, s: Session, slot: nat, tokens: seq<string>, ups: Ups)
    ensures Shaped(c, s, slot, SetCmd(c, s, slot, tokens, ups))
  {
    ReplyShape(c, s, slot, Err(InvalidArgument));
    if |tokens| >= 3 {
      TrackingShape(c, s, slot, tokens[2]);
    }
    if |tokens| >= 5 {
      SetVariableShape(c, s, slot, tokens[2], tokens[3], tokens[4], ups);
    }
  }

  lemma DispatchedShape(c: Config, s: Session, slot: nat, verb: Verb, tokens: seq<string>, ups: Ups)
    ensures Shaped(c, s, slot, Dispatched(c, s, slot, verb, tokens, ups))
  {
    match verb {
      case USERNAME => PasswordShape(c, s, slot, tokens);
      case PASSWORD => PasswordShape(c, s, slot, tokens);
      case LOGIN => PasswordShape(c, s, slot, tokens);
      case LOGOUT => ReplyShape(c, s, slot, OkGoodbye);
      case INSTCMD => InstcmdShape(c, s, slot, tokens, ups);
      case SET => SetCmdShape(c, s, slot, tokens, ups);
      case UNKNOWN => ReplyShape(c, s, slot, Err(UnknownCommand));
      case _ => ReplyShape(c, s, slot, Text);
    }
  }

  /** Every outcome has one of these shapes. */
  lemma ProcessShape(c: Config, s: Session, slot: nat, tokens: seq<string>, ups: Ups)
    ensures Shaped(c, s, slot, Process(c, s, slot, tokens, ups))
  {
    if tokens != [] {
      DispatchedShape(c, s, slot, VerbOf(tokens[0]), tokens, ups);
    }
    if Missing(c, s).Some? {
      ReplyShape(c, s, slot, Err(Missing(c, s).value));
    }
  }

  lemma ShapedOk(c: Config, s: Session, facts: seq<Fact>, slot: nat, o: Outcome)
    requires FactsOk(c, facts) && SessionOk(c, s, facts, slot) && Shaped(c, s, slot, o)
    ensures FactsOk(c, facts + o.facts) && SessionOk(c, o.session, facts + o.facts, slot)
  {
    if |o.facts| == 0 {
      assert facts + o.facts == facts;
    } else if |o.facts| == 1 {
      assert o.facts == [o.facts[0]];
      FactKeeps(c, s, facts, o.facts[0], o.session);
    } else {
      var a, b := o.facts[0], o.facts[1];
      var mid := if b.Closed? then s else o.session;
      FactKeeps(c, s, facts, a, mid);
      FactKeeps(c, mid, facts + [a], b, o.session);
      assert facts + o.facts == (facts + [a]) + [b];
    }
  }

  /** A command keeps the session of its slot in step with the facts it adds. */
  lemma ProcessOk(c: Config, s: Session, facts: seq<Fact>, slot: nat, tokens: seq<string>, ups: Ups)
    requires FactsOk(c, facts) && SessionOk(c, s, facts, slot)
    ensures var o := Process(c, s, slot, tokens, ups);
      && FactsOk(c, facts + o.facts) && SessionOk(c, o.session, facts + o.facts, slot)
      && forall f <- o.facts :: f.slot == slot
  {
    ProcessShape(c, s, slot, tokens, ups);
    ShapedOk(c, s, facts, slot, Process(c, s, slot, tokens, ups));
  }

  lemma StartedOk(c: Config)
    ensures Invariant(Started(c))
  {
  }

  lemma StepOk(v: Server, e: Event)
    requires Invariant(v)
    ensures Invariant(Step(v, e))
  {
    var r := Step(v, e);
    var slot := SlotOf(v, e);
    if r != v {
      assert SessionOk(v.config, v.sessions[slot], v.facts, slot);
      var more := r.facts[|v.facts|..];
      assert r.facts == v.facts + more;
      match e {
        case Connect(_) =>
          assert more == [Opened(slot)];
          FactKeeps(v.config, v.sessions[slot], v.facts, Opened(slot), r.sessions[slot]);
        case Disconnect(_) =>
          assert more == [Closed(slot)];
          FactKeeps(v.config, v.sessions[slot], v.facts, Closed(slot), r.sessions[slot]);
        case Line(_, line, ups) =>
          ProcessOk(v.config, v.sessions[slot], v.facts, slot, NutTokens.Split(line), ups);
          assert more == Process(v.config, v.sessions[slot], slot, NutTokens.Split(line), ups).facts;
      }
      forall n | 0 <= n < MAX_CLIENTS ensures SessionOk(v.config, r.sessions[n], r.facts, n) {
        if n != slot {
          assert SessionOk(v.config, v.sessions[n], v.facts, n);
          OtherSlotUntouched(v.config, v.facts, more, n);
        }
      }
    }
  }

  lemma {:induction false} RunOk(c: Config, events: seq<Event>)
    ensures Invariant(Run(c, events))
    decreases |events|
  {
    if events == [] {
      StartedOk(c);
    } else {
      RunOk(c, events[..|events| - 1]);
      StepOk(Run(c, events[..|events| - 1]), events[|events| - 1]);
    }
  }

  // ----- What the server promises -----

  /**
   In every run over all slots, with credentials configured, a command or a write reaches the UPS only
   on a slot whose current session got OK to PASSWORD with the configured name and password before.
   */
  lemma OnlyGrantedSessionsReachTheUps(c: Config, events: seq<Event>, j: nat)
    requires c.username != "" && c.password != "" && j < |Run(c, events).facts| && TouchesUps(Run(c, events).facts[j])
    ensures Granted(c, Run(c, events).facts[..j], Run(c, events).facts[j].slot)
  {
    RunOk(c, events);
    assert FactOk(c, Run(c, events).facts, j);
  }

  /** The flag of a slot is exactly the grant of its current session. */
  lemma AuthenticatedExactlyWhenGranted(c: Config, events: seq<Event>, slot: nat)
    requires slot < MAX_CLIENTS
    ensures Run(c, events).sessions[slot].authenticated <==> Granted(c, Run(c, events).facts, slot)
  {
    RunOk(c, events);
    assert SessionOk(c, Run(c, events).sessions[slot], Run(c, events).facts, slot);
  }

  /** PASSWORD gets OK exactly for the configured password after the configured name. */
  lemma PasswordAcceptedExactly(c: Config, events: seq<Event>, j: nat)
    requires j < |Run(c, events).facts| && Run(c, events).facts[j].PasswordSent?
    ensures var facts := Run(c, events).facts;
      facts[j].accepted <==>
        LastUsername(facts[..j], facts[j].slot) == c.username && facts[j].password == c.password
  {
    RunOk(c, events);
    assert FactOk(c, Run(c, events).facts, j);
  }

  /** A name other than the empty one was sent on the current session. */
  lemma {:induction false} NameWasSent(facts: seq<Fact>, slot: nat) returns (i: nat)
    requires LastUsername(facts, slot) != ""
    ensures i < |facts| && facts[i] == UsernameSent(slot, LastUsername(facts, slot))
    ensures forall k :: i < k < |facts| ==> !Boundary(facts[k], slot)
    decreases |facts|
  {
    var f := facts[|facts| - 1];
    if f.UsernameSent? && f.slot == slot {
      i := |facts| - 1;
    } else {
      i := NameWasSent(facts[..|facts| - 1], slot);
      assert facts[..|facts| - 1][i] == facts[i];
      forall k | i < k < |facts| ensures !Boundary(facts[k], slot) {
        assert k < |facts| - 1 ==> facts[..|facts| - 1][k] == facts[k];
      }
    }
  }

  lemma GrantedSentBoth(c: Config, facts: seq<Fact>, slot: nat)
    requires Granted(c, facts, slot)
    ensures PasswordWasSent(facts, slot) && (c.username != "" ==> BothSent(facts, slot))
  {
    var j :| 0 <= j < |facts| && GrantAt(c, facts, slot, j)
      && forall k :: j < k < |facts| ==> !Boundary(facts[k], slot);
    assert facts[j].PasswordSent? && facts[j].slot == slot;
    if c.username != "" {
      var before := facts[..j];
      var i := NameWasSent(before, slot);
      assert facts[i] == before[i];
      forall k | i < k < |facts| ensures !Boundary(facts[k], slot) {
        assert k < j ==> before[k] == facts[k];
      }
    }
  }

  /** Authenticated implies that the password and, unless it is empty, the name were sent on the current session. */
  lemma AuthenticatedSentBoth(c: Config, events: seq<Event>, slot: nat)
    requires slot < MAX_CLIENTS && Run(c, events).sessions[slot].authenticated
    ensures PasswordWasSent(Run(c, events).facts, slot)
    ensures c.username != "" ==> BothSent(Run(c, events).facts, slot)
  {
    AuthenticatedExactlyWhenGranted(c, events, slot);
    GrantedSentBoth(c, Run(c, events).facts, slot);
  }

  lemma TwoEvents(c: Config, a: Event, b: Event)
    ensures Run(c, [a, b]) == Step(Step(Started(c), a), b)
  {
    assert [a, b][..1] == [a] && [a][..0] == [];
    assert Run(c, [a]) == Step(Run(c, []), a);
  }

  lemma PasswordWord()
    ensures VerbOf("PASSWORD") == PASSWORD
  {
    assert Upper("PASSWORD") == "PASSWORD";
  }

  lemma FirstSlotOpens(c: Config)
    ensures var v := Step(Started(c), Connect([])); v.config == c && v.sessions[0] == NO_SESSION.(active := true)
  {
    assert FreeSlot(Started(c).sessions[0], [], 0);
  }

  lemma PasswordTaken(c: Config, s: Session, slot: nat, ups: Ups)
    requires s.username == c.username
    ensures Process(c, s, slot, ["PASSWORD", c.password], ups).session == s.(passwordSet := true, authenticated := true)
  {
    PasswordWord();
  }

  /** With an empty configured name, which asks nobody for credentials, PASSWORD alone authenticates. */
  lemma PasswordAloneAuthenticates(c: Config, ups: Ups)
    requires c.username == "" && '\0' !in c.password
    ensures var line := NutTokens.Join(["PASSWORD", c.password]);
      var s := Run(c, [Connect([]), Line(0, line, ups)]).sessions[0];
      s.authenticated && !s.usernameSet && !c.AuthRequired()
  {
    var line := NutTokens.Join(["PASSWORD", c.password]);
    NutTokens.SplitGivesWordsBack(["PASSWORD", c.password]);
    TwoEvents(c, Connect([]), Line(0, line, ups));
    FirstSlotOpens(c);
    PasswordTaken(c, NO_SESSION.(active := true), 0, ups);
  }

  /** No other slot's traffic changes a session: only its own lines, its close and its reopening do. */
  lemma OtherSlotsKeepTheirSessions(v: Server, e: Event, n: nat)
    requires v.Valid() && n < MAX_CLIENTS && SlotOf(v, e) != n
    ensures Step(v, e).sessions[n] == v.sessions[n]
  {
  }

  /** The slot is entitled to reach the UPS, read off the facts alone. */
  ghost predicate Entitled(c: Config, facts: seq<Fact>, slot: nat) {
    c.username != "" && c.password != "" ==> Granted(c, facts, slot)
  }

  lemma EntitledMissesNothing(c: Config, events: seq<Event>, slot: nat)
    requires slot < MAX_CLIENTS && Entitled(c, Run(c, events).facts, slot)
    ensures Missing(c, Run(c, events).sessions[slot]).None?
    ensures c.AuthRequired() ==> Run(c, events).sessions[slot].authenticated
  {
    RunOk(c, events);
    assert SessionOk(c, Run(c, events).sessions[slot], Run(c, events).facts, slot);
  }

  /** The session may touch the UPS. */
  predicate Cleared(c: Config, s: Session) {
    Missing(c, s).None? && (c.AuthRequired() ==> s.authenticated)
  }

  lemma ClearedExactlyWhenEntitled(c: Config, events: seq<Event>, slot: nat)
    requires slot < MAX_CLIENTS
    ensures Cleared(c, Run(c, events).sessions[slot]) <==> Entitled(c, Run(c, events).facts, slot)
  {
    AuthenticatedExactlyWhenGranted(c, events, slot);
    if Entitled(c, Run(c, events).facts, slot) {
      EntitledMissesNothing(c, events, slot);
    }
  }

  /** The name of this UPS, in any case. */
  predicate ForThisUps(c: Config, name: string) {
    NutVariables.Lower(name) == NutVariables.Lower(c.upsName)
  }

  predicate IsInstcmd(c: Config, w: seq<string>, ups: Ups, name: string) {
    |w| >= 3 && Upper(w[0]) == "INSTCMD" && ForThisUps(c, w[1]) && w[2] == name && ups.attached
  }

  /** The UPS is there with fresh data, knows the variable, and no override fixes it. */
  predicate Writable(ups: Ups, variable: string) {
    && ups.attached && ups.connected && !ups.stale
    && NutVariables.Resolve(ups.data, ups.overrides, ups.status, NutVariables.Lower(variable)).Some?
    && NutVariables.Find(ups.overrides, variable).None?
  }

  predicate IsSetVar(c: Config, w: seq<string>, ups: Ups, name: string, value: string) {
    && |w| >= 5 && Upper(w[0]) == "SET" && Upper(w[1]) == "VAR" && ForThisUps(c, w[2])
    && ups.check == CheckOk(name) && w[4] == value && Writable(ups, w[3])
  }

  lemma InstcmdExecutes(c: Config, s: Session, slot: nat, w: seq<string>, ups: Ups, name: string)
    requires Missing(c, s).None?
    ensures CommandExecuted(slot, name) in Instcmd(c, s, slot, w, ups).facts <==>
      (|w| >= 3 && SameUps(c, w[1]) && w[2] == name && ups.attached && Cleared(c, s))
  {
    if |w| >= 3 && SameUps(c, w[1]) && w[2] == name && ups.attached && Cleared(c, s) {
      assert Instcmd(c, s, slot, w, ups).facts[0] == CommandExecuted(slot, name);
    }
  }

  lemma SetVariableWrites(c: Config, s: Session, slot: nat, name: string, variable: string, value: string, ups: Ups,
                          known: string, v: string)
    requires Missing(c, s).None?
    ensures VariableSet(slot, known, v) in SetVariable(c, s, slot, name, variable, value, ups).facts <==>
      (SameUps(c, name) && Writable(ups, variable) && ups.check == CheckOk(known) && v == value && Cleared(c, s))
  {
    var facts := SetVariable(c, s, slot, name, variable, value, ups).facts;
    if SameUps(c, name) && Writable(ups, variable) && ups.check == CheckOk(known) && v == value && Cleared(c, s) {
      assert facts[0] == VariableSet(slot, known, v);
    }
  }

  lemma SetVariableExecutesNothing(c: Config, s: Session, slot: nat, name: string, variable: string, value: string,
                                   ups: Ups)
    ensures forall f <- SetVariable(c, s, slot, name, variable, value, ups).facts :: !f.CommandExecuted?
  {
  }

  lemma SetCmdExecutesNothing(c: Config, s: Session, slot: nat, w: seq<string>, ups: Ups)
    ensures forall f <- SetCmd(c, s, slot, w, ups).facts :: !f.CommandExecuted?
    ensures |w| < 5 || SetCommandOf(w[1]) != SetVar ==> forall f <- SetCmd(c, s, slot, w, ups).facts :: f.Replied?
  {
    if |w| >= 5 && SetCommandOf(w[1]) == SetVar {
      SetVariableExecutesNothing(c, s, slot, w[2], w[3], w[4], ups);
    }
  }

  /** No other command runs one on the UPS. */
  lemma OnlyInstcmdExecutes(c: Config, s: Session, slot: nat, w: seq<string>, ups: Ups)
    ensures w == [] || VerbOf(w[0]) != INSTCMD ==> forall f <- Process(c, s, slot, w, ups).facts :: !f.CommandExecuted?
    ensures w == [] || VerbOf(w[0]) != SET ==> forall f <- Process(c, s, slot, w, ups).facts :: !f.VariableSet?
  {
    SetCmdExecutesNothing(c, s, slot, w, ups);
  }

  lemma ProcessExecutes(c: Config, s: Session, slot: nat, w: seq<string>, ups: Ups, name: string)
    ensures CommandExecuted(slot, name) in Process(c, s, slot, w, ups).facts <==>
      IsInstcmd(c, w, ups, name) && Cleared(c, s)
  {
    OnlyInstcmdExecutes(c, s, slot, w, ups);
    if w != [] {
      WordsOfVerbs(w[0]);
    }
    if w != [] && VerbOf(w[0]) == INSTCMD && Missing(c, s).None? {
      InstcmdExecutes(c, s, slot, w, ups, name);
    }
  }

  lemma ProcessWrites(c: Config, s: Session, slot: nat, w: seq<string>, ups: Ups, name: string, value: string)
    ensures VariableSet(slot, name, value) in Process(c, s, slot, w, ups).facts <==>
      IsSetVar(c, w, ups, name, value) && Cleared(c, s)
  {
    OnlyInstcmdExecutes(c, s, slot, w, ups);
    SetCmdExecutesNothing(c, s, slot, w, ups);
    if |w| >= 2 {
      WordsOfVerbs(w[0]);
      WordsOfVerbs(w[1]);
    }
    if |w| >= 5 && VerbOf(w[0]) == SET && SetCommandOf(w[1]) == SetVar && Missing(c, s).None? {
      SetVariableWrites(c, s, slot, w[2], w[3], w[4], ups, name, value);
      assert Process(c, s, slot, w, ups) == SetVariable(c, s, slot, w[2], w[3], w[4], ups);
    }
  }

  /** The facts one line adds. */
  function Added(v: Server, slot: nat, line: string, ups: Ups): (r: seq<Fact>)
    requires v.Valid() && slot < MAX_CLIENTS
  {
    Step(v, Line(slot, line, ups)).facts[|v.facts|..]
  }

  lemma AddedByProcess(v: Server, slot: nat, line: string, ups: Ups)
    requires v.Valid() && slot < MAX_CLIENTS
    ensures Added(v, slot, line, ups) == Process(v.config, v.sessions[slot], slot, NutTokens.Split(line), ups).facts
  {
  }

  /** After any run, a line runs a command on the UPS exactly when the facts entitle its slot. */
  lemma InstcmdReachesExactly(c: Config, events: seq<Event>, slot: nat, line: string, ups: Ups, name: string)
    requires slot < MAX_CLIENTS
    ensures CommandExecuted(slot, name) in Added(Run(c, events), slot, line, ups) <==>
      IsInstcmd(c, NutTokens.Split(line), ups, name) && Entitled(c, Run(c, events).facts, slot)
  {
    AddedByProcess(Run(c, events), slot, line, ups);
    ProcessExecutes(c, Run(c, events).sessions[slot], slot, NutTokens.Split(line), ups, name);
    ClearedExactlyWhenEntitled(c, events, slot);
  }

  /** After any run, a line writes a variable of the UPS exactly when the facts entitle its slot. */
  lemma SetVarReachesExactly(c: Config, events: seq<Event>, slot: nat, line: string, ups: Ups, name: string,
                             value: string)
    requires slot < MAX_CLIENTS
    ensures VariableSet(slot, name, value) in Added(Run(c, events), slot, line, ups) <==>
      IsSetVar(c, NutTokens.Split(line), ups, name, value) && Entitled(c, Run(c, events).facts, slot)
  {
    AddedByProcess(Run(c, events), slot, line, ups);
    ProcessWrites(c, Run(c, events).sessions[slot], slot, NutTokens.Split(line), ups, name, value);
    ClearedExactlyWhenEntitled(c, events, slot);
  }

  /** The reply to a line is OK. */
  predicate Okay(o: Outcome, slot: nat) {
    Replied(slot, Ok) in o.facts
  }

  /** LOGIN gets OK exactly for this UPS on a slot that is cleared, and changes nothing. */
  lemma LoginAcceptedExactly(c: Config, s: Session, slot: nat, w: seq<string>, ups: Ups)
    requires w != [] && VerbOf(w[0]) == LOGIN
    ensures Okay(Process(c, s, slot, w, ups), slot) <==> |w| >= 2 && SameUps(c, w[1]) && Cleared(c, s)
    ensures Process(c, s, slot, w, ups).session == s
  {
    var o := Process(c, s, slot, w, ups);
    assert |o.facts| == 1 && (Okay(o, slot) <==> o.facts[0] == Replied(slot, Ok));
  }

  /** INSTCMD gets OK exactly when the command ran and the UPS did it, on a session that does not track. */
  lemma InstcmdOkExactly(c: Config, s: Session, slot: nat, w: seq<string>, ups: Ups)
    requires w != [] && VerbOf(w[0]) == INSTCMD
    ensures Okay(Process(c, s, slot, w, ups), slot) <==>
      |w| >= 3 && IsInstcmd(c, w, ups, w[2]) && Cleared(c, s) && ups.result == Done && !s.tracking
  {
    var o := Process(c, s, slot, w, ups);
    assert |o.facts| == 1 || |o.facts| == 2;
    assert o.facts[|o.facts| - 1] in o.facts;
  }

  /** SET VAR gets OK exactly when it wrote the variable and the UPS confirmed it, on a session that does not track. */
  lemma SetVarOkExactly(c: Config, s: Session, slot: nat, name: string, variable: string, value: string, ups: Ups)
    ensures Okay(SetVariable(c, s, slot, name, variable, value, ups), slot) <==>
      && SameUps(c, name) && Writable(ups, variable) && ups.check.CheckOk? && (c.AuthRequired() ==> s.authenticated)
      && ups.written && !s.tracking
  {
    var o := SetVariable(c, s, slot, name, variable, value, ups);
    assert |o.facts| == 1 || |o.facts| == 2;
    assert o.facts[|o.facts| - 1] in o.facts;
  }

  /** A SET VAR line, complete or not. */
  predicate AsksSetVar(w: seq<string>) {
    |w| >= 2 && Upper(w[0]) == "SET" && Upper(w[1]) == "VAR"
  }

  /** What an OK to a LOGIN, an INSTCMD or a SET VAR stands for: done on this UPS, and not only tracked. */
  predicate IsDone(c: Config, w: seq<string>, ups: Ups, tracking: bool) {
    || (|w| >= 2 && Upper(w[0]) == "LOGIN" && ForThisUps(c, w[1]))
    || (|w| >= 3 && IsInstcmd(c, w, ups, w[2]) && ups.result == Done && !tracking)
    || (|w| >= 5 && ups.check.CheckOk? && IsSetVar(c, w, ups, ups.check.name, w[4]) && ups.written && !tracking)
  }

  lemma SetVarLineOkExactly(c: Config, s: Session, slot: nat, w: seq<string>, ups: Ups)
    requires AsksSetVar(w)
    ensures Okay(Process(c, s, slot, w, ups), slot) <==> IsDone(c, w, ups, s.tracking) && Cleared(c, s)
  {
    if |w| >= 5 && Missing(c, s).None? {
      SetVarOkExactly(c, s, slot, w[2], w[3], w[4], ups);
      assert Process(c, s, slot, w, ups) == SetVariable(c, s, slot, w[2], w[3], w[4], ups);
    }
  }

  /**
   After any run, LOGIN, INSTCMD and SET VAR get OK exactly when the request is for this UPS and was carried out
   (no tracking hides the result) and the facts entitle the slot.
   */
  lemma OkExactlyWhenDone(c: Config, events: seq<Event>, slot: nat, line: string, ups: Ups)
    requires slot < MAX_CLIENTS
    requires var w := NutTokens.Split(line); w != [] && (Upper(w[0]) in {"LOGIN", "INSTCMD"} || AsksSetVar(w))
    ensures Replied(slot, Ok) in Added(Run(c, events), slot, line, ups) <==>
      && IsDone(c, NutTokens.Split(line), ups, Run(c, events).sessions[slot].tracking)
      && Entitled(c, Run(c, events).facts, slot)
  {
    var s, w := Run(c, events).sessions[slot], NutTokens.Split(line);
    AddedByProcess(Run(c, events), slot, line, ups);
    ClearedExactlyWhenEntitled(c, events, slot);
    WordsOfVerbs(w[0]);
    WordsApart();
    if Upper(w[0]) == "LOGIN" {
      LoginAcceptedExactly(c, s, slot, w, ups);
    } else if Upper(w[0]) == "INSTCMD" {
      InstcmdOkExactly(c, s, slot, w, ups);
    } else {
      SetVarLineOkExactly(c, s, slot, w, ups);
    }
  }

  // ----- Each slot by itself -----

  /** What reaches one slot. */
  datatype Own = Reopened | Ended | Said(line: string, ups: Ups)

  function Reaching(v: Server, e: Event, n: nat): (r: seq<Own>) {
    if SlotOf(v, e) != n then []
    else match e
      case Connect(_) => [Reopened]
      case Disconnect(_) => [Ended]
      case Line(_, line, ups) => [Said(line, ups)]
  }

  function Traffic(c: Config, events: seq<Event>, n: nat): (r: seq<Own>)
    decreases |events|
  {
    if events == [] then []
    else
      var front := events[..|events| - 1];
      Traffic(c, front, n) + Reaching(Run(c, front), events[|events| - 1], n)
  }

  function Advance(c: Config, n: nat, before: Outcome, own: Own): (r: Outcome) {
    match own
    case Reopened => Outcome(NO_SESSION.(active := true), before.facts + [Opened(n)])
    case Ended => Outcome(NO_SESSION, before.facts + [Closed(n)])
    case Said(line, ups) =>
      var o := Process(c, before.session, n, NutTokens.Split(line), ups);
      Outcome(o.session, before.facts + o.facts)
  }

  /** One slot that shares the server with nobody. */
  function Alone(c: Config, n: nat, traffic: seq<Own>): (r: Outcome)
    decreases |traffic|
  {
    if traffic == [] then Outcome(NO_SESSION, [])
    else Advance(c, n, Alone(c, n, traffic[..|traffic| - 1]), traffic[|traffic| - 1])
  }

  /** The facts of one slot. */
  function Of(facts: seq<Fact>, n: nat): (r: seq<Fact>)
    decreases |facts|
  {
    if facts == [] then []
    else Of(facts[..|facts| - 1], n) + if facts[|facts| - 1].slot == n then [facts[|facts| - 1]] else []
  }

  lemma OfAfter(facts: seq<Fact>, f: Fact, n: nat)
    ensures Of(facts + [f], n) == Of(facts, n) + if f.slot == n then [f] else []
  {
    assert (facts + [f])[..|facts|] == facts;
  }

  lemma JoinedFacts(a: seq<Fact>, b: seq<Fact>, c: seq<Fact>)
    ensures (a + b) + c == a + (b + c)
  {
  }

  predicate AllOf(facts: seq<Fact>, slot: nat) {
    forall i :: 0 <= i < |facts| ==> facts[i].slot == slot
  }

  lemma {:induction false} OfMore(facts: seq<Fact>, more: seq<Fact>, slot: nat, n: nat)
    requires AllOf(more, slot)
    ensures Of(facts + more, n) == Of(facts, n) + if slot == n then more else []
    decreases |more|
  {
    if more == [] {
      assert facts + more == facts;
    } else {
      var front, f := more[..|more| - 1], more[|more| - 1];
      OfMore(facts, front, slot, n);
      OfAfter(facts + front, f, n);
      assert front + [f] == more;
      JoinedFacts(facts, front, [f]);
      JoinedFacts(Of(facts, n), front, [f]);
    }
  }

  lemma AloneAfter(c: Config, n: nat, traffic: seq<Own>, own: Own)
    ensures Alone(c, n, traffic + [own]) == Advance(c, n, Alone(c, n, traffic), own)
  {
    assert (traffic + [own])[..|traffic|] == traffic;
  }

  /** A step adds facts of one slot. */
  lemma StepAdds(v: Server, e: Event) returns (more: seq<Fact>)
    requires v.Valid()
    ensures Step(v, e).facts == v.facts + more && forall f <- more :: f.slot == SlotOf(v, e)
    ensures SlotOf(v, e) < MAX_CLIENTS ==> more == match e
      case Connect(_) => [Opened(SlotOf(v, e))]
      case Disconnect(slot) => [Closed(slot)]
      case Line(slot, line, ups) => Process(v.config, v.sessions[slot], slot, NutTokens.Split(line), ups).facts
  {
    more := Step(v, e).facts[|v.facts|..];
    if e.Line? && e.slot < MAX_CLIENTS {
      ProcessShape(v.config, v.sessions[e.slot], e.slot, NutTokens.Split(e.line), e.ups);
    }
  }

  lemma OtherStep(v: Server, e: Event, n: nat)
    requires v.Valid() && n < MAX_CLIENTS && SlotOf(v, e) != n
    ensures Step(v, e).sessions[n] == v.sessions[n] && Of(Step(v, e).facts, n) == Of(v.facts, n)
  {
    var more := StepAdds(v, e);
    OfMore(v.facts, more, SlotOf(v, e), n);
    OtherSlotsKeepTheirSessions(v, e, n);
  }

  lemma OwnStep(v: Server, e: Event, n: nat)
    requires v.Valid() && n < MAX_CLIENTS && SlotOf(v, e) == n
    ensures Advance(v.config, n, Outcome(v.sessions[n], Of(v.facts, n)), Reaching(v, e, n)[0])
         == Outcome(Step(v, e).sessions[n], Of(Step(v, e).facts, n))
  {
    var more := StepAdds(v, e);
    OfMore(v.facts, more, n, n);
  }

  lemma SlotStep(v: Server, e: Event, n: nat, traffic: seq<Own>)
    requires v.Valid() && n < MAX_CLIENTS && Alone(v.config, n, traffic) == Outcome(v.sessions[n], Of(v.facts, n))
    ensures Alone(v.config, n, traffic + Reaching(v, e, n)) == Outcome(Step(v, e).sessions[n], Of(Step(v, e).facts, n))
  {
    if SlotOf(v, e) == n {
      OwnStep(v, e, n);
      var own := Reaching(v, e, n)[0];
      assert Reaching(v, e, n) == [own];
      AloneAfter(v.config, n, traffic, own);
    } else {
      OtherStep(v, e, n);
      assert traffic + Reaching(v, e, n) == traffic;
    }
  }

  /**
   In every run, a slot's session and its facts (replies, commands and writes) are those of the slot by itself
   with what reached it: no client can change what another one is, sees or does.
   */
  lemma {:induction false} EachSlotIsAlone(c: Config, events: seq<Event>, n: nat)
    requires n < MAX_CLIENTS
    ensures Alone(c, n, Traffic(c, events, n)) == Outcome(Run(c, events).sessions[n], Of(Run(c, events).facts, n))
    decreases |events|
  {
    if events != [] {
      var front := events[..|events| - 1];
      EachSlotIsAlone(c, front, n);
      SlotStep(Run(c, front), events[|events| - 1], n, Traffic(c, front, n));
    }
  }

  // ----- The server, slot by slot in place -----

  class NutServer {
    const config: Config
    const sessions: array<Session>
    /** What happened on the connections and towards the UPS. */
    ghost var facts: seq<Fact>

    ghost predicate Valid()
      reads this, sessions
    {
      sessions.Length == MAX_CLIENTS
    }

    ghost function State(): (v: Server)
      requires Valid()
      reads this, sessions
      ensures v.Valid()
    {
      Server(config, sessions[..], facts)
    }

    constructor (c: Config)
      ensures Valid() && fresh(sessions) && State() == Started(c)
    {
      config := c;
      sessions := new Session[MAX_CLIENTS](_ => NO_SESSION);
      facts := [];
    }

    /** openSession(): the first slot without a live client, or -1. */
    method OpenSession(connected: seq<bool>) returns (slot: int)
      requires Valid()
      modifies this`facts, sessions
      ensures Valid() && State() == Step(old(State()), Connect(connected))
      ensures slot == -1 <==> forall i :: 0 <= i < MAX_CLIENTS ==> !FreeSlot(old(sessions[..])[i], connected, i)
      ensures slot != -1 ==> 0 <= slot < MAX_CLIENTS && sessions[slot] == NO_SESSION.(active := true)
    {
      slot := -1;
      var i := 0;
      while i < MAX_CLIENTS && slot == -1
        invariant 0 <= i <= MAX_CLIENTS
        invariant slot == -1 ==> FirstFree(sessions[..], connected, 0) == FirstFree(sessions[..], connected, i)
        invariant slot != -1 ==> 0 <= slot < MAX_CLIENTS && slot == FirstFree(sessions[..], connected, 0)
      {
        if !sessions[i].active || (i < |connected| && !connected[i]) {
          slot := i;
        }
        i := i + 1;
      }
      if slot == -1 {
        return;
      }
      sessions[slot] := NO_SESSION.(active := true);
      facts := facts + [Opened(slot)];
    }

    /** closeSession() */
    method CloseSession(slot: int)
      requires Valid()
      modifies this`facts, sessions
      ensures Valid()
      ensures State() == if slot < 0 then old(State()) else Step(old(State()), Disconnect(slot))
    {
      if 0 <= slot < MAX_CLIENTS {
        sessions[slot] := NO_SESSION;
        facts := facts + [Closed(slot)];
      }
    }

    /** missingCredentials() */
    method MissingCredentials(slot: nat) returns (missing: Option<Error>)
      requires Valid() && slot < MAX_CLIENTS
      ensures missing == Missing(config, sessions[slot])
      ensures missing.Some? <==>
        config.AuthRequired() && (!sessions[slot].usernameSet || !sessions[slot].passwordSet)
    {
      if config.username == "" || config.password == "" {
        return None;
      }
      if !sessions[slot].usernameSet {
        return Some(UsernameRequired);
      }
      if !sessions[slot].passwordSet {
        return Some(PasswordRequired);
      }
      return None;
    }

    /** The rest of the state when one slot's line is done. */
    twostate predicate Did(slot: nat, o: Outcome)
      requires old(Valid()) && slot < MAX_CLIENTS
      reads this, sessions
    {
      Valid() && facts == old(facts) + o.facts && sessions[..] == old(sessions[..])[slot := o.session]
    }

    method Reply(slot: nat, reply: Reply)
      requires Valid() && slot < MAX_CLIENTS
      modifies this`facts
      ensures Did(slot, Outcome(sessions[slot], [Replied(slot, reply)]))
    {
      facts := facts + [Replied(slot, reply)];
      assert sessions[..] == old(sessions[..])[slot := sessions[slot]];
    }

    method SetUsername(slot: nat, tokens: seq<string>)
      requires Valid() && slot < MAX_CLIENTS
      modifies this`facts, sessions
      ensures Did(slot, Username(old(sessions[slot]), slot, tokens))
    {
      if |tokens| < 2 {
        Reply(slot, Err(InvalidArgument));
        return;
      }
      sessions[slot] := sessions[slot].(username := tokens[1], usernameSet := true);
      facts := facts + [UsernameSent(slot, tokens[1]), Replied(slot, Ok)];
    }

    method CheckPassword(slot: nat, tokens: seq<string>)
      requires Valid() && slot < MAX_CLIENTS
      modifies this`facts, sessions
      ensures Did(slot, Password(config, old(sessions[slot]), slot, tokens))
    {
      if |tokens| < 2 {
        Reply(slot, Err(InvalidArgument));
        return;
      }
      var password := tokens[1];
      sessions[slot] := sessions[slot].(passwordSet := true);
      if sessions[slot].username == config.username && password == config.password {
        sessions[slot] := sessions[slot].(authenticated := true);
        facts := facts + [PasswordSent(slot, password, true), Replied(slot, Ok)];
      } else {
        facts := facts + [PasswordSent(slot, password, false), Replied(slot, Err(AccessDenied))];
      }
    }

    method RunCommand(slot: nat, tokens: seq<string>, ups: Ups)
      requires Valid() && slot < MAX_CLIENTS
      modifies this`facts, sessions
      ensures Did(slot, Instcmd(config, old(sessions[slot]), slot, tokens, ups))
    {
      if config.AuthRequired() && !sessions[slot].authenticated {
        Reply(slot, Err(AccessDenied));
      } else if |tokens| < 3 {
        Reply(slot, Err(InvalidArgument));
      } else if !SameUps(config, tokens[1]) {
        Reply(slot, Err(UnknownUps));
      } else if !ups.attached {
        Reply(slot, Err(DriverNotConnected));
      } else {
        facts := facts + [CommandExecuted(slot, tokens[2])];
        Reply(slot, InstcmdReply(sessions[slot], ups.result));
      }
    }

    /** setVar() */
    method SetVar(slot: nat, upsName: string, variable: string, value: string, ups: Ups)
      requires Valid() && slot < MAX_CLIENTS
      modifies this`facts, sessions
      ensures Did(slot, SetVariable(config, old(sessions[slot]), slot, upsName, variable, value, ups))
    {
      if !SameUps(config, upsName) {
        Reply(slot, Err(UnknownUps));
      } else if !ups.attached || !ups.connected {
        Reply(slot, Err(DriverNotConnected));
      } else if ups.stale {
        Reply(slot, Err(DataStale));
      } else if config.AuthRequired() && !sessions[slot].authenticated {
        Reply(slot, Err(AccessDenied));
      } else {
        var present := NutVariables.Resolve(ups.data, ups.overrides, ups.status, NutVariables.Lower(variable));
        if present.None? {
          Reply(slot, Err(VarNotSupported));
        } else if NutVariables.Find(ups.overrides, variable).Some? {
          Reply(slot, Err(ReadOnly));
        } else {
          match ups.check {
            case NotWritable => Reply(slot, Err(ReadOnly));
            case InvalidAux => Reply(slot, Err(SetFailed));
            case ValueTooLong => Reply(slot, Err(TooLong));
            case ValueInvalid => Reply(slot, Err(InvalidValue));
            case CheckOk(known) =>
              facts := facts + [VariableSet(slot, known, value)];
              Reply(slot, if sessions[slot].tracking then OkTracking else if ups.written then Ok else Err(SetFailed));
          }
        }
      }
    }

    method SetCommand(slot: nat, tokens: seq<string>, ups: Ups)
      requires Valid() && slot < MAX_CLIENTS
      modifies this`facts, sessions
      ensures Did(slot, SetCmd(config, old(sessions[slot]), slot, tokens, ups))
    {
      if |tokens| < 3 {
        Reply(slot, Err(InvalidArgument));
        return;
      }
      match SetCommandOf(tokens[1]) {
        case SetVar =>
          if |tokens| < 5 {
            Reply(slot, Err(InvalidArgument));
          } else {
            SetVar(slot, tokens[2], tokens[3], tokens[4], ups);
          }
        case SetTracking =>
          var mode := Upper(tokens[2]);
          if mode == "ON" {
            sessions[slot] := sessions[slot].(tracking := true);
            Reply(slot, Ok);
          } else if mode == "OFF" {
            sessions[slot] := sessions[slot].(tracking := false);
            Reply(slot, Ok);
          } else {
            Reply(slot, Err(InvalidArgument));
          }
        case SetOther => Reply(slot, Err(InvalidArgument));
      }
    }

    method LoginCommand(slot: nat, tokens: seq<string>)
      requires Valid() && slot < MAX_CLIENTS
      modifies this`facts
      ensures Did(slot, Login(config, sessions[slot], slot, tokens))
    {
      if |tokens| < 2 {
        Reply(slot, Err(InvalidArgument));
      } else if !SameUps(config, tokens[1]) {
        Reply(slot, Err(UnknownUps));
      } else if config.AuthRequired() && !sessions[slot].authenticated {
        Reply(slot, Err(AccessDenied));
      } else {
        Reply(slot, Ok);
      }
    }

    method Dispatch(slot: nat, tokens: seq<string>, ups: Ups)
      requires Valid() && slot < MAX_CLIENTS && tokens != []
      modifies this`facts, sessions
      ensures Did(slot, Process(config, old(sessions[slot]), slot, tokens, ups))
    {
      var verb := VerbOf(tokens[0]);
      if verb == LOGIN || verb == SET || verb == INSTCMD {
        var missing := MissingCredentials(slot);
        if missing.Some? {
          Reply(slot, Err(missing.value));
          return;
        }
      }
      match verb {
        case USERNAME => SetUsername(slot, tokens);
        case PASSWORD => CheckPassword(slot, tokens);
        case LOGIN => LoginCommand(slot, tokens);
        case LOGOUT =>
          Reply(slot, OkGoodbye);
          CloseSession(slot);
          assert old(facts) + [Replied(slot, OkGoodbye), Closed(slot)]
            == (old(facts) + [Replied(slot, OkGoodbye)]) + [Closed(slot)];
        case INSTCMD => RunCommand(slot, tokens, ups);
        case SET => SetCommand(slot, tokens, ups);
        case LIST => Reply(slot, Text);
        case GET => Reply(slot, Text);
        case INFO => Reply(slot, Text);
        case UNKNOWN => Reply(slot, Err(UnknownCommand));
      }
    }

    /** processCommand() */
    method ProcessCommand(slot: nat, line: string, ups: Ups)
      requires Valid() && slot < MAX_CLIENTS
      modifies this`facts, sessions
      ensures Valid() && State() == Step(old(State()), Line(slot, line, ups))
    {
      var tokens := NutTokens.SplitTokens(line);
      if tokens == [] {
        assert sessions[..] == old(sessions[..])[slot := sessions[slot]];
        return;
      }
      Dispatch(slot, tokens, ups);
    }
  }
}
