/**
 What each command and request of a session is answered in every run of the server, from the
 state of the session, the users and the files at the moment it was taken.
 */
module ServerCommands {
  import opened Messages
  import opened SessionModel
  import opened SessionInvariants
  import opened SessionHistories
  import opened SessionStore
  import opened StoreHistory
  import opened Server
  import opened ServerProperties
  import opened ServerAnswers
  import opened ServerOutcomes
  import F = FtpCommands
  import FtpParser
  import H = HttpHandlers
  import HttpParser
  import HttpResponse
  import MemoryFs
  import R = SessionRuns
  import U = UserDatabase

  // ---------------------------------------------------------------- the reply a command deserves

  /** The reply code of a command for users, once someone is logged in. */
  function DeservedByUser(s: F.State, files: MemoryFs.Files, available: bool, c: FtpParser.FtpCommand,
                          tokens: seq<string>): nat {
    var has := |tokens| == 2;
    var argument := if |tokens| >= 2 then tokens[1] else "";
    match c
    case List => 150
    case Retr => if !s.acceptorOpen then 425 else if s.workingDir + argument in files then 150 else 550
    case Stor => if !has then 501 else if s.acceptorOpen then 150 else 425
    case Dele => if argument in files then 250 else 550
    case Pasv => if available then 227 else 421
    case Type => 200
    case Cwd => if has then 250 else 501
    case _ => 0
  }

  /** The reply code of any command; `available` tells whether a data acceptor can be set up. */
  function Deserved(s: F.State, users: U.Users, files: MemoryFs.Files, available: bool, c: FtpParser.FtpCommand,
                    tokens: seq<string>): nat {
    if c == FtpParser.User then if |tokens| == 2 then 331 else 501
    else if c == FtpParser.Pass then
      if s.lastCommand != FtpParser.User then 503
      else if |tokens| != 2 then 501
      else if U.Knows(users, s.lastUsername, tokens[1]) then 230 else 530
    else if c == FtpParser.Quit then 221
    else if s.loggedIn.None? then 530
    else DeservedByUser(s, files, available, c, tokens)
  }

  lemma HandleDeserves(s: F.State, env: F.Env, r: FtpParser.Request)
    requires F.RequestDefined(s, r)
    ensures F.Handle(s, env, r).code ==
              Deserved(s, env.users, env.files, env.endpoint.Some?, r.command, r.tokens)
  {
    hide F.Handle, U.Knows, F.EndpointIn;
    match r.command
    case User => F.UserIff(s, env, r);
    case Pass => F.PassIff(s, env, r);
    case Quit => F.TypeAndQuit(s, env, r);
    case _ =>
      F.NotLoggedInIff(s, env, r);
      if s.loggedIn.Some? {
        UserDeserves(s, env, r);
      }
  }

  lemma UserDeserves(s: F.State, env: F.Env, r: FtpParser.Request)
    requires F.RequestDefined(s, r) && F.ForUsers(r.command) && s.loggedIn.Some?
    ensures F.Handle(s, env, r).code == DeservedByUser(s, env.files, env.endpoint.Some?, r.command, r.tokens)
  {
    hide F.Handle, F.EndpointIn;
    match r.command
    case List => F.ListIff(s, env, r);
    case Retr => F.RetrIff(s, env, r);
    case Stor => F.StorIff(s, env, r);
    case Dele => F.DeleIff(s, env, r);
    case Pasv => F.PasvIff(s, env, r);
    case Type => F.TypeAndQuit(s, env, r);
    case Cwd => F.CwdIff(s, env, r);
  }

  // ---------------------------------------------------------------- commands at their moments

  /** Turn a took command c of this history of session i, and gave it the code it deserved then. */
  ghost predicate CommandAt(trail: seq<World>, i: nat, log: seq<F.Logged>, c: nat, a: nat, available: bool) {
    && c < |log| && a + 1 < |trail| && i < |trail[a].sessions| && i < |trail[a + 1].sessions|
    && trail[a].sessions[i].log == log[..c] && trail[a + 1].sessions[i].log == log[..c + 1]
    && log[c].code == Deserved(trail[a].sessions[i].ftp, trail[a].users, trail[a].files, available,
                               log[c].command, log[c].tokens)
  }

  ghost predicate CommandKnown(trail: seq<World>, i: nat, log: seq<F.Logged>, c: nat) {
    exists a: nat, available: bool :: CommandAt(trail, i, log, c, a, available)
  }

  ghost predicate AllKnown(trail: seq<World>, i: nat, log: seq<F.Logged>) {
    forall c: nat :: c < |log| ==> CommandKnown(trail, i, log, c)
  }

  lemma KnownStays(trail: seq<World>, v: World, i: nat, log: seq<F.Logged>, longer: seq<F.Logged>, c: nat)
    requires CommandKnown(trail, i, log, c) && log <= longer
    ensures CommandKnown(trail + [v], i, longer, c)
  {
    hide Deserved;
    var a: nat, available: bool :| CommandAt(trail, i, log, c, a, available);
    assert longer[..c] == log[..c] && longer[..c + 1] == log[..c + 1];
    assert CommandAt(trail + [v], i, longer, c, a, available);
  }

  lemma AllStay(trail: seq<World>, v: World, i: nat, log: seq<F.Logged>)
    requires AllKnown(trail, i, log)
    ensures AllKnown(trail + [v], i, log)
  {
    hide CommandKnown;
    forall c: nat | c < |log| ensures CommandKnown(trail + [v], i, log, c) {
      KnownStays(trail, v, i, log, log, c);
    }
  }

  /** A line adds at most one command, with the code it deserves. */
  ghost predicate Deserves(s: Session, t: Session, env: Env) {
    t.log == s.log ||
    (&& |t.log| == |s.log| + 1 && s.log <= t.log
     && var l := t.log[|s.log|];
        l.code == Deserved(s.ftp, env.ftp.users, env.ftp.files, env.ftp.endpoint.Some?, l.command, l.tokens))
  }

  lemma FtpDeserves(s: Session, env: Env, r: FtpParser.Request)
    requires r.valid ==> F.RequestDefined(s.ftp, r)
    ensures Deserves(s, FtpLine(s, env, r).0, env)
  {
    hide F.Handle, F.RequestDefined, Deserved, Reply;
    if r.valid {
      HandleDeserves(s.ftp, env.ftp, r);
    }
  }

  lemma LineDeserves(s: Session, env: Env, packet: string)
    requires PacketDefined(s, env, packet) && s.inputs != []
    ensures Deserves(s, LineReceived(s, env, packet).0, env)
  {
    hide F.RequestDefined, H.RequestDefined, HttpParser.Defined, HttpParser.Parse, FtpParser.Parse, FtpLine,
      HttpRequest, IsHttpPacket, Deserved;
    var t := s.(inputs := s.inputs[1..]);
    if IsHttpPacket(packet) {
      HttpLeavesFtp(t, env, HttpParser.Parse(packet));
    } else {
      FtpDeserves(t, env, FtpParser.Parse(packet));
    }
  }

  lemma StepDeserves(s: Session, env: Env, e: Event)
    requires Defined(s) && Enabled(s, env, e)
    ensures Deserves(s, Step(s, env, e).0, env)
  {
    hide Defined, Step, Deserved, LineReceived, PacketDefined;
    if e.Line? {
      LineThere(s, env, e.packet);
      LineIsStep(s, env, e.packet);
      LineDeserves(s, env, e.packet);
    } else {
      StepLeavesCommands(s, env, e);
    }
  }

  lemma LineThere(s: Session, env: Env, packet: string)
    requires Enabled(s, env, Line(packet))
    ensures s.inputs != [] && PacketDefined(s, env, packet)
  {
    hide PacketDefined;
  }

  lemma StepKeepsKnown(trail: seq<World>, v: World, i: nat, env: Env, e: Event)
    requires StepOf(trail, v, i, env, e) && AllKnown(trail, i, Last(trail).sessions[i].log)
    ensures AllKnown(trail + [v], i, v.sessions[i].log)
  {
    hide Inv, Defined, Enabled, Step, CommandKnown, Deserved, MemoryFs.IsListing;
    var s, t := Last(trail).sessions[i], v.sessions[i];
    StepDeserves(s, env, e);
    forall c: nat | c < |t.log| ensures CommandKnown(trail + [v], i, t.log, c) {
      if c < |s.log| {
        KnownStays(trail, v, i, s.log, t.log, c);
      } else {
        NewIsKnown(trail, v, i, env);
      }
    }
  }

  lemma NewIsKnown(trail: seq<World>, v: World, i: nat, env: Env)
    requires trail != [] && i < |Last(trail).sessions| && i < |v.sessions|
    requires env.ftp.users == Last(trail).users && env.ftp.files == Last(trail).files
    requires var s, t := Last(trail).sessions[i], v.sessions[i];
             Deserves(s, t, env) && |t.log| == |s.log| + 1
    ensures CommandKnown(trail + [v], i, v.sessions[i].log, |v.sessions[i].log| - 1)
  {
    hide Deserved;
    var s, t := Last(trail).sessions[i], v.sessions[i];
    var a := |trail| - 1;
    assert (trail + [v])[a] == trail[a] && (trail + [v])[a + 1] == v;
    assert t.log[..|s.log|] == s.log && t.log[..|s.log| + 1] == t.log;
    assert CommandAt(trail + [v], i, t.log, |s.log|, a, env.ftp.endpoint.Some?);
  }

  ghost predicate Records(trail: seq<World>) {
    trail != [] && forall i :: 0 <= i < |Last(trail).sessions| ==> AllKnown(trail, i, Last(trail).sessions[i].log)
  }

  lemma NextRecords(trail: seq<World>, turn: Turn)
    requires Records(trail) && WorldInv(Last(trail)) && TurnEnabled(Last(trail), turn)
    ensures Records(trail + [Next(Last(trail), turn)])
  {
    hide AllKnown, Inv, WorldInv, Enabled, Step, Applied, MemoryFs.IsListing, Fresh, U.Inserted, Trusted;
    var w := Last(trail);
    var v := Next(w, turn);
    forall j: nat | j < |v.sessions| ensures AllKnown(trail + [v], j, v.sessions[j].log) {
      if j < |w.sessions| {
        AllStay(trail, v, j, w.sessions[j].log);
      }
      match turn
      case Connect(greet) => FreshKnown(trail + [v], j, greet);
      case AddUser(_) =>
      case In(i, chance, event) =>
        WorldSession(w, i);
        R.InvParts(w.sessions[i]);
        if j == i {
          StepKeepsKnown(trail, v, i, EnvOf(w, chance), event);
        }
    }
  }

  lemma FreshKnown(trail: seq<World>, i: nat, greet: bool)
    ensures AllKnown(trail, i, Fresh(greet).log)
  {
    hide Reply, CommandKnown;
  }

  lemma {:induction false} TrailRecords(before: seq<World>, w: World, turns: seq<Turn>)
    requires WorldInv(w) && ValidRun(w, turns) && Records(before + [w])
    ensures Records(before + Trail(w, turns))
    decreases |turns|
  {
    hide WorldInv, Records, TurnEnabled, Next;
    if turns != [] {
      NextKeeps(w, turns[0]);
      NextRecords(before + [w], turns[0]);
      TrailRecords(before + [w], Next(w, turns[0]), turns[1..]);
      var rest := Trail(Next(w, turns[0]), turns[1..]);
      assert (before + [w]) + rest == before + ([w] + rest);
    }
  }

  /**
   In every run of the server each command of a session was answered by the code it deserved, from
   the session's state, the users and the files before the turn that took it.
   */
  lemma CommandsAreAnswered(authenticate: bool, turns: seq<Turn>, i: nat, c: nat) returns (a: nat, available: bool)
    requires Run(authenticate, turns) && i < |Last(History(authenticate, turns)).sessions|
    requires c < |Last(History(authenticate, turns)).sessions[i].log|
    ensures CommandAt(History(authenticate, turns), i, Last(History(authenticate, turns)).sessions[i].log, c, a,
                      available)
  {
    hide WorldInv, ValidRun, Trail, CommandAt;
    var w := Empty(authenticate);
    assert [] + [w] == [w];
    TrailRecords([], w, turns);
    assert [] + Trail(w, turns) == Trail(w, turns);
    var log := Last(History(authenticate, turns)).sessions[i].log;
    assert CommandKnown(History(authenticate, turns), i, log, c);
    a, available :| CommandAt(History(authenticate, turns), i, log, c, a, available);
  }

  // ---------------------------------------------------------------- by the history alone

  /** At its moment the session's command state was what its history until then says. */
  lemma StateAtMoment(authenticate: bool, turns: seq<Turn>, i: nat, log: seq<F.Logged>, c: nat, a: nat, available: bool)
    requires Run(authenticate, turns) && CommandAt(History(authenticate, turns), i, log, c, a, available)
    ensures F.Agrees(History(authenticate, turns)[a].sessions[i].ftp, log[..c])
  {
    hide Run, History, Reachable, Inv, Trusted, F.Agrees, Deserved;
    HistoryStates(authenticate, turns, a);
    ReachableSession(History(authenticate, turns)[a], i);
    R.InvParts(History(authenticate, turns)[a].sessions[i]);
  }

  /**
   In every run PASS directly behind a well-formed USER, with one argument, is answered by 230 if
   that name is "anonymous" or was in the user table at that moment with that password, and by 530
   otherwise.
   */
  lemma PassIsAnswered(authenticate: bool, turns: seq<Turn>, i: nat, c: nat) returns (a: nat)
    requires Run(authenticate, turns) && i < |Last(History(authenticate, turns)).sessions|
    requires var log := Last(History(authenticate, turns)).sessions[i].log;
             && 0 < c < |log| && log[c].command == FtpParser.Pass && |log[c].tokens| == 2
             && log[c - 1].command == FtpParser.User && |log[c - 1].tokens| == 2
    ensures var trail := History(authenticate, turns);
            var log := Last(trail).sessions[i].log;
            && a + 1 < |trail| && i < |trail[a].sessions| && trail[a].sessions[i].log == log[..c]
            && var name, pass, users := log[c - 1].tokens[1], log[c].tokens[1], trail[a].users;
               log[c].code == if name == "anonymous" || (name in users && users[name] == pass) then 230 else 530
  {
    hide Run, History;
    var available;
    a, available := CommandsAreAnswered(authenticate, turns, i, c);
    var log := Last(History(authenticate, turns)).sessions[i].log;
    StateAtMoment(authenticate, turns, i, log, c, a, available);
    NameIsLast(log[..c]);
    assert log[..c][c - 1] == log[c - 1];
  }

  lemma NameIsLast(log: seq<F.Logged>)
    requires log != [] && log[|log| - 1].command == FtpParser.User && |log[|log| - 1].tokens| == 2
    ensures F.NameBy(log) == log[|log| - 1].tokens[1] && F.LastBy(log) == FtpParser.User
  {
  }

  /**
   In every run CWD is answered by 250 exactly with one argument and while someone was logged in,
   else by 501 or 530.
   */
  lemma CwdIsAnswered(authenticate: bool, turns: seq<Turn>, i: nat, c: nat)
    requires Run(authenticate, turns) && i < |Last(History(authenticate, turns)).sessions|
    requires var log := Last(History(authenticate, turns)).sessions[i].log;
             c < |log| && log[c].command == FtpParser.Cwd
    ensures var log := Last(History(authenticate, turns)).sessions[i].log;
            log[c].code ==
              if F.LoggedInBy(log[..c]).None? then 530 else if |log[c].tokens| == 2 then 250 else 501
  {
    hide Run, History, F.LoggedInBy, F.NameBy, F.DirsBy, F.DirText, U.Knows;
    var a, available := CommandsAreAnswered(authenticate, turns, i, c);
    var log := Last(History(authenticate, turns)).sessions[i].log;
    StateAtMoment(authenticate, turns, i, log, c, a, available);
  }

  /**
   In every run LIST is answered by 150 exactly while someone was logged in, and STOR only then,
   with one argument.
   */
  lemma ListAndStorAreAnswered(authenticate: bool, turns: seq<Turn>, i: nat, c: nat) returns (a: nat)
    requires Run(authenticate, turns) && i < |Last(History(authenticate, turns)).sessions|
    requires c < |Last(History(authenticate, turns)).sessions[i].log|
    ensures var trail := History(authenticate, turns);
            var log := Last(trail).sessions[i].log;
            && a + 1 < |trail| && i < |trail[a].sessions| && trail[a].sessions[i].log == log[..c]
            && (log[c].command == FtpParser.List ==> (log[c].code == 150 <==> F.LoggedInBy(log[..c]).Some?))
            && (log[c].command == FtpParser.Stor ==>
                  (log[c].code == 150 <==>
                     F.LoggedInBy(log[..c]).Some? && |log[c].tokens| == 2 && trail[a].sessions[i].ftp.acceptorOpen))
  {
    hide Run, History, F.LoggedInBy, F.NameBy, F.DirsBy, F.DirText, U.Knows;
    var available;
    a, available := CommandsAreAnswered(authenticate, turns, i, c);
    var log := Last(History(authenticate, turns)).sessions[i].log;
    StateAtMoment(authenticate, turns, i, log, c, a, available);
  }

  // ---------------------------------------------------------------- where users come from

  /** Turn a added this user, under a name that was new then. */
  ghost predicate AddedAt(trail: seq<World>, turns: seq<Turn>, user: U.User, a: nat) {
    && a < |turns| && a < |trail| && turns[a] == AddUser(user)
    && user.username !in trail[a].users && user.username != "anonymous"
  }

  lemma AddedAtNext(w: World, turns: seq<Turn>, user: U.User, a: nat)
    requires WorldInv(w) && ValidRun(w, turns) && turns != []
    requires WorldInv(Next(w, turns[0])) && AddedAt(Trail(Next(w, turns[0]), turns[1..]), turns[1..], user, a)
    ensures AddedAt(Trail(w, turns), turns, user, a + 1)
  {
    hide WorldInv, TurnEnabled, Next;
  }

  lemma NextUsers(w: World, turn: Turn)
    requires WorldInv(w) && TurnEnabled(w, turn)
    ensures Next(w, turn).users == if turn.AddUser? then U.Inserted(w.users, turn.user) else w.users
  {
    hide Inv, WorldInv, Enabled, Step, Applied, MemoryFs.IsListing, Fresh, U.Inserted;
  }

  /** In every run a pair in the user table was there before, or was added by the first turn that added its name. */
  lemma {:induction false} UsersAreAdded(w: World, turns: seq<Turn>, name: string) returns (a: nat)
    requires WorldInv(w) && ValidRun(w, turns) && name in Last(Trail(w, turns)).users && name !in w.users
    ensures AddedAt(Trail(w, turns), turns, U.User(name, Last(Trail(w, turns)).users[name]), a)
    decreases |turns|
  {
    hide WorldInv, TurnEnabled, Next, AddedAt;
    NextKeeps(w, turns[0]);
    NextUsers(w, turns[0]);
    var v := Next(w, turns[0]);
    if name in v.users {
      var user := turns[0].user;
      U.InsertedIs(w.users, user);
      UserStays(v, turns[1..], name);
      a := 0;
      FirstAdded(w, turns, user);
    } else {
      a := UsersAreAdded(v, turns[1..], name);
      AddedAtNext(w, turns, U.User(name, Last(Trail(v, turns[1..])).users[name]), a);
      a := a + 1;
    }
  }

  lemma FirstAdded(w: World, turns: seq<Turn>, user: U.User)
    requires WorldInv(w) && ValidRun(w, turns) && turns != [] && turns[0] == AddUser(user)
    requires user.username !in w.users && user.username != "anonymous"
    ensures AddedAt(Trail(w, turns), turns, user, 0)
  {
    hide WorldInv, TurnEnabled, Next;
  }

  lemma {:induction false} UserStays(w: World, turns: seq<Turn>, name: string)
    requires WorldInv(w) && ValidRun(w, turns) && name in w.users
    ensures name in Last(Trail(w, turns)).users && Last(Trail(w, turns)).users[name] == w.users[name]
    decreases |turns|
  {
    hide WorldInv, TurnEnabled, Next;
    if turns != [] {
      NextKeeps(w, turns[0]);
      NextUsers(w, turns[0]);
      if turns[0].AddUser? {
        U.InsertedIs(w.users, turns[0].user);
      }
      UserStays(Next(w, turns[0]), turns[1..], name);
    }
  }

  /**
   In every run whoever is logged in under a name other than "anonymous" was added with that very
   password, by the first turn that added the name.
   */
  lemma LoginWasAdded(authenticate: bool, turns: seq<Turn>, i: nat) returns (a: nat)
    requires Run(authenticate, turns) && i < |Last(History(authenticate, turns)).sessions|
    requires var ftp := Last(History(authenticate, turns)).sessions[i].ftp;
             ftp.loggedIn.Some? && ftp.loggedIn.value.username != "anonymous"
    ensures AddedAt(History(authenticate, turns), turns,
                    Last(History(authenticate, turns)).sessions[i].ftp.loggedIn.value, a)
  {
    hide Reachable, WorldInv, Inv, AddedAt, ValidRun, Trail, F.LoggedInBy, F.LatestIsPass, F.PassAfterUser, F.DirsBy,
      F.DirText, F.LastBy, U.Verified;
    var w := Last(History(authenticate, turns));
    HistoryStates(authenticate, turns, |turns|);
    LoginsHold(w, i);
    var user := w.sessions[i].ftp.loggedIn.value;
    U.VerifiedIff(w.users, user);
    a := UsersAreAdded(Empty(authenticate), turns, user.username);
    assert user == U.User(user.username, w.users[user.username]);
  }

  // ---------------------------------------------------------------- requests at their moments

  /** What an answer says about the moment of its request. */
  lemma AtOnceTells(users: U.Users, files: MemoryFs.Files, listing: seq<string>, authenticate: bool,
                    r: HttpParser.Request, response: HttpResponse.Response)
    requires H.RequestDefined(authenticate, r)
    ensures AtOnce(users, files, listing, authenticate, r, response) ==>
              && (response.code == 400 <==> !r.valid)
              && (response.code == 401 <==> r.valid && !H.Admits(users, authenticate, r))
              && (r.valid && r.method_ == HttpParser.Delete && response.code != 401 ==>
                    response.code == if r.uri in files then 200 else 404)
              && (H.Admits(users, authenticate, r) ==> r.method_ != HttpParser.Put)
    ensures BodyFirst(users, files, listing, authenticate, r) ==>
              H.Admits(users, authenticate, r) && r.method_ == HttpParser.Put
  {
    hide H.Admits, HttpParser.AuthInfoOf, HttpParser.AuthDefined;
    H.RefusedIff(users, files, listing, authenticate, r);
    if H.Admits(users, authenticate, r) {
      AdmitsValid(users, authenticate, r);
      match r.method_
      case Get => H.GetIs(users, files, listing, authenticate, r);
      case Put => H.PutIs(users, files, listing, authenticate, r);
      case Delete => H.DeleteIs(users, files, listing, authenticate, r);
    }
  }

  lemma AdmitsValid(users: U.Users, authenticate: bool, r: HttpParser.Request)
    requires H.RequestDefined(authenticate, r) && H.Admits(users, authenticate, r)
    ensures r.valid && r.method_ != HttpParser.Unrecognized
  {
    hide HttpParser.AuthInfoOf, HttpParser.AuthDefined;
  }

  /**
   In every run the n-th response is a 400 exactly if the n-th request is not valid, and a 401
   exactly if it is but was not let in with the users of the moment it was taken.
   */
  lemma RefusalsTell(authenticate: bool, turns: seq<Turn>, i: nat, n: nat) returns (a: nat, listing: seq<string>)
    requires Run(authenticate, turns)
    requires var w := Last(History(authenticate, turns));
             i < |w.sessions| && n < |R.FinalTags(w.sessions[i].ctl.history)|
    ensures var trail := History(authenticate, turns);
            var s := Last(trail).sessions[i];
            var tag := R.FinalTags(s.ctl.history)[n];
            && IsFinal(tag) && n < |s.requests| && TakenAt(trail, i, n, s.requests[n], a, listing)
            && var r, w := s.requests[n], trail[a];
               && H.RequestDefined(w.authenticate, r)
               && (tag.response.code == 400 <==> !r.valid)
               && (tag.response.code == 401 <==> r.valid && !H.Admits(w.users, w.authenticate, r))
  {
    hide Run, History, R.FinalTags, AtOnce, BodyFirst, FinalCount, MemoryFs.IsListing, H.RequestDefined, H.Admits,
      H.BodyResponse;
    var b;
    a, b, listing := ResponsesAnswerTheirRequests(authenticate, turns, i, n);
    var trail := History(authenticate, turns);
    var s := Last(trail).sessions[i];
    var w, r, response := trail[a], s.requests[n], R.FinalTags(s.ctl.history)[n].response;
    AnswersDefined(w.users, w.files, listing, w.authenticate, r, response);
    AtOnceTells(w.users, w.files, listing, w.authenticate, r, response);
    H.BodyAnswerIs(trail[b].files, r.uri, n in s.bodies);
    if BodyFirst(w.users, w.files, listing, w.authenticate, r) {
      AdmitsValid(w.users, w.authenticate, r);
    }
  }

  lemma AnswersDefined(users: U.Users, files: MemoryFs.Files, listing: seq<string>, authenticate: bool,
                       r: HttpParser.Request, response: HttpResponse.Response)
    ensures AtOnce(users, files, listing, authenticate, r, response) ==> H.RequestDefined(authenticate, r)
    ensures BodyFirst(users, files, listing, authenticate, r) ==> H.RequestDefined(authenticate, r)
  {
    hide H.Handle, H.RequestDefined;
  }

  /**
   In every run a DELETE that is not refused is answered by 200 exactly if its path was in the store
   when it was taken, else by 404; and it removed the path exactly in the first case.
   */
  lemma DeletesTellTheStore(authenticate: bool, turns: seq<Turn>, i: nat, n: nat) returns (a: nat, listing: seq<string>)
    requires Run(authenticate, turns)
    requires var w := Last(History(authenticate, turns));
             i < |w.sessions| && n < |R.FinalTags(w.sessions[i].ctl.history)|
    requires var s := Last(History(authenticate, turns)).sessions[i];
             var tag := R.FinalTags(s.ctl.history)[n];
             && n < |s.requests| && s.requests[n].valid && s.requests[n].method_ == HttpParser.Delete
             && IsFinal(tag) && tag.response.code != 401
    ensures var trail := History(authenticate, turns);
            var s := Last(trail).sessions[i];
            var code := R.FinalTags(s.ctl.history)[n].response.code;
            && TakenAt(trail, i, n, s.requests[n], a, listing)
            && code == (if s.requests[n].uri in trail[a].files then 200 else 404)
            && (code == 200 <==> Made(Last(trail), i, DeleteRequest(n)))
  {
    hide Run, History, R.FinalTags, AtOnce, BodyFirst, FinalCount, MemoryFs.IsListing, H.RequestDefined, H.Admits,
      H.BodyResponse, Reachable, Inv, Made, Tells;
    var b;
    a, b, listing := ResponsesAnswerTheirRequests(authenticate, turns, i, n);
    var trail := History(authenticate, turns);
    var s := Last(trail).sessions[i];
    var w, r, response := trail[a], s.requests[n], R.FinalTags(s.ctl.history)[n].response;
    AnswersDefined(w.users, w.files, listing, w.authenticate, r, response);
    AtOnceTells(w.users, w.files, listing, w.authenticate, r, response);
    HistoryStates(authenticate, turns, |turns|);
    ReachableSession(Last(trail), i);
    DeleteTellsIff(s, n);
    SuccessIsTold(Last(trail), i, DeleteRequest(n));
  }

  lemma DeleteTellsIff(s: Session, n: nat)
    requires Inv(s) && n < |R.FinalTags(s.ctl.history)|
    requires n < |s.requests| && s.requests[n].valid && s.requests[n].method_ == HttpParser.Delete
    ensures IsFinal(R.FinalTags(s.ctl.history)[n])
    ensures R.FinalTags(s.ctl.history)[n].response.code == 200 <==> Tells(s, DeleteRequest(n))
  {
    hide Inv, R.FinalTags, FinalCount, Numbered, Answers;
    R.InvParts(s);
    R.AnswersNumbered(s);
    var h := s.ctl.history;
    R.FinalsAnswerInOrder(h, |s.requests|);
    var at := TagInHistory(h, n);
    forall k | 0 <= k < |h| && IsFinal(h[k].tag) && h[k].tag.request == n
      ensures h[k].tag == R.FinalTags(h)[n]
    {
      TagAt(h, k);
      RequestIsCount(s, k);
    }
    assert MessageTells(h[at], s.requests, DeleteRequest(n)) <==> h[at].tag.response.code == 200;
  }
}
