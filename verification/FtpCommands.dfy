/**
 The FTP command handlers (server/object_storage/src/ftp_command_handlers.cpp) as one state
 machine over the session's command state. Every recognised command gets exactly one reply.
 */
module FtpCommands {
  import opened Wrappers
  import opened Utils
  import opened FtpParser
  import opened HttpSyntax
  import Decimal
  import Listing
  import MemoryFs
  import U = UserDatabase

  datatype State = State(
    loggedIn: Option<U.User>,
    lastUsername: string,
    lastCommand: FtpCommand,
    workingDir: string,
    acceptorOpen: bool
  )

  const Initial := State(None, "", Unrecognized, "/", false)

  datatype Endpoint = Endpoint(ip: seq<nat>, port: nat)

  /** What a handler meets outside the session's own state. */
  datatype Env = Env(
    users: U.Users,
    files: MemoryFs.Files,
    listing: seq<string>,         // the order in which the store lists its paths
    endpoint: Option<Endpoint>,   // the new data acceptor, if it could be set up
    openAfterFailure: bool        // whether a failed set-up leaves the acceptor open
  )

  /** What a handler starts or changes besides its reply. */
  datatype Effect =
    | Nothing
    | StartDownload(bytes: string)
    | StartUpload(path: string)
    | Delete(path: string)

  datatype Outcome = Outcome(state: State, code: nat, text: string, effect: Effect)

  /** RETR and DELE use their second token unchecked. */
  predicate RequestDefined(s: State, r: Request) {
    && r.valid && r.command != Unrecognized && r.tokens != []
    && (s.loggedIn.Some? && (r.command == Dele || (r.command == Retr && s.acceptorOpen)) ==> |r.tokens| >= 2)
  }

  function HandleUser(s: State, r: Request): Outcome {
    var t := s.(loggedIn := None);
    if |r.tokens| != 2 then Outcome(t, 501, "No username provided", Nothing)
    else Outcome(t.(lastUsername := r.tokens[1]), 331, "Please provide password", Nothing)
  }

  function HandlePass(s: State, env: Env, r: Request): Outcome {
    if s.lastCommand != User then Outcome(s, 503, "Please specify username first", Nothing)
    else if |r.tokens| != 2 then Outcome(s, 501, "No password provided", Nothing)
    else
      var user := U.User(s.lastUsername, r.tokens[1]);
      if U.Verified(env.users, user) then Outcome(s.(loggedIn := Some(user)), 230, "Login successful", Nothing)
      else Outcome(s, 530, "Failed to log in", Nothing)
  }

  function HandleList(s: State, env: Env): Outcome {
    if s.loggedIn.None? then Outcome(s, 530, "Not logged in", Nothing)
    else Outcome(s, 150, "Listing all objects stored", StartDownload(Listing.Text(env.listing)))
  }

  function HandleRetr(s: State, env: Env, r: Request): Outcome
    requires s.loggedIn.Some? && s.acceptorOpen ==> |r.tokens| >= 2
  {
    if s.loggedIn.None? then Outcome(s, 530, "Not logged in", Nothing)
    else if !s.acceptorOpen then Outcome(s, 425, "Error opening data connection", Nothing)
    else
      var path := s.workingDir + r.tokens[1];
      if path in env.files then Outcome(s, 150, "Sending file", StartDownload(env.files[path]))
      else Outcome(s, 550, "File not found", Nothing)
  }

  function HandleStor(s: State, r: Request): Outcome {
    if s.loggedIn.None? then Outcome(s, 530, "Not logged in", Nothing)
    else if |r.tokens| != 2 then Outcome(s, 501, "No file specified", Nothing)
    else if !s.acceptorOpen then Outcome(s, 425, "Faile to open data connection", Nothing)
    else Outcome(s, 150, "Ready to receive", StartUpload(s.workingDir + r.tokens[1]))
  }

  function HandleDele(s: State, env: Env, r: Request): Outcome
    requires s.loggedIn.Some? ==> |r.tokens| >= 2
  {
    if s.loggedIn.None? then Outcome(s, 530, "Not logged in", Nothing)
    else if r.tokens[1] in env.files then Outcome(s, 250, "File deleted", Delete(r.tokens[1]))
    else Outcome(s, 550, "Unable to delete file", Nothing)
  }

  function HandlePasv(s: State, env: Env): Outcome {
    if s.loggedIn.None? then Outcome(s, 530, "Not logged in", Nothing)
    else
      match env.endpoint
      case None =>
        Outcome(s.(acceptorOpen := env.openAfterFailure), 421, "Passive mode not supported", Nothing)
      case Some(e) =>
        Outcome(s.(acceptorOpen := true), 227, "Entering passive mode " + PassiveText(e), Nothing)
  }

  function HandleType(s: State): Outcome {
    if s.loggedIn.None? then Outcome(s, 530, "Not logged in", Nothing)
    else Outcome(s, 200, "Mode switched", Nothing)
  }

  function HandleQuit(s: State): Outcome {
    Outcome(s.(loggedIn := None, workingDir := "/", lastCommand := Unrecognized, lastUsername := ""),
            221, "Connection closed", Nothing)
  }

  function HandleCwd(s: State, r: Request): Outcome {
    if s.loggedIn.None? then Outcome(s, 530, "Not logged in", Nothing)
    else if |r.tokens| != 2 then Outcome(s, 501, "No directory specified", Nothing)
    else Outcome(s.(workingDir := s.workingDir + r.tokens[1] + "/"), 250, "Working directory changed", Nothing)
  }

  function Dispatch(s: State, env: Env, r: Request): Outcome
    requires RequestDefined(s, r)
  {
    match r.command
    case User => HandleUser(s, r)
    case Pass => HandlePass(s, env, r)
    case List => HandleList(s, env)
    case Retr => HandleRetr(s, env, r)
    case Stor => HandleStor(s, r)
    case Dele => HandleDele(s, env, r)
    case Pasv => HandlePasv(s, env)
    case Type => HandleType(s)
    case Quit => HandleQuit(s)
    case Cwd => HandleCwd(s, r)
  }

  /** handleFtp: after the handler, the command just handled is the last one, even after QUIT. */
  function Handle(s: State, env: Env, r: Request): Outcome
    requires RequestDefined(s, r)
  {
    var o := Dispatch(s, env, r);
    o.(state := o.state.(lastCommand := r.command))
  }

  /** PASS looks at the users alone, RETR and DELE at the files. */
  lemma EnvParts(s: State, env: Env, other: Env, r: Request)
    requires RequestDefined(s, r) && env.users == other.users && env.files == other.files
    ensures HandlePass(s, env, r) == HandlePass(s, other, r)
    ensures r.command == Retr ==> HandleRetr(s, env, r) == HandleRetr(s, other, r)
    ensures r.command == Dele ==> HandleDele(s, env, r) == HandleDele(s, other, r)
    ensures env.listing == other.listing ==> HandleList(s, env) == HandleList(s, other)
    ensures env.endpoint == other.endpoint && env.openAfterFailure == other.openAfterFailure ==>
              HandlePasv(s, env) == HandlePasv(s, other)
  {
    hide U.Verified, PassiveText, Listing.Text;
  }

  /** Transfers and deletions come only from their own commands, and only while someone is logged in. */
  lemma EffectsNeedLogin(s: State, env: Env, r: Request)
    requires RequestDefined(s, r)
    ensures var o := Handle(s, env, r);
            && (o.effect != Nothing ==> s.loggedIn.Some? && |r.tokens| >= 1)
            && (o.code == 150 <==> o.effect.StartDownload? || o.effect.StartUpload?)
            && (o.effect.StartDownload? ==> r.command == List || r.command == Retr)
            && (o.effect.StartUpload? ==> r.command == Stor && |r.tokens| == 2
                                          && o.effect.path == s.workingDir + r.tokens[1])
            && (o.effect.Delete? ==> r.command == Dele && o.code == 250 && |r.tokens| >= 2
                                     && o.effect.path == r.tokens[1] && o.effect.path in env.files)
  {
    hide PassiveText, Listing.Text;
  }

  /** No command is answered by one of the codes that end transfers. */
  lemma NoEndingCodes(s: State, env: Env, r: Request)
    requires RequestDefined(s, r)
    ensures Handle(s, env, r).code !in {226, 450, 426}
  {
    hide PassiveText, Listing.Text;
  }

  lemma DispatchEffects(s: State, env: Env, r: Request)
    requires RequestDefined(s, r)
    ensures var o := Dispatch(s, env, r);
            o.effect.Delete? ==> r.command == Dele && |r.tokens| >= 2 && o.effect.path == r.tokens[1]
  {
    hide Dispatch;
    EffectsNeedLogin(s, env, r);
  }

  // ---------------------------------------------------------------- which commands succeed

  /** USER is taken exactly with one argument; it always logs out, and then remembers the name. */
  lemma UserIff(s: State, env: Env, r: Request)
    requires RequestDefined(s, r) && r.command == User
    ensures var o := Handle(s, env, r);
            && o.effect == Nothing && o.state.loggedIn == None
            && (if |r.tokens| == 2 then o.code == 331 && o.state.lastUsername == r.tokens[1]
                else o.code == 501 && o.state.lastUsername == s.lastUsername)
  {
  }

  /**
   PASS succeeds exactly behind USER, with one argument, and for a pair that is known; then that
   pair is logged in.
   */
  lemma PassIff(s: State, env: Env, r: Request)
    requires RequestDefined(s, r) && r.command == Pass
    ensures var o := Handle(s, env, r);
            && o.effect == Nothing
            && (o.code == 230 <==>
                  s.lastCommand == User && |r.tokens| == 2 && U.Knows(env.users, s.lastUsername, r.tokens[1]))
            && (o.code == 230 ==> o.state.loggedIn == Some(U.User(s.lastUsername, r.tokens[1])))
            && (o.code != 230 ==> o.state.loggedIn == s.loggedIn)
            && (o.code == 503 <==> s.lastCommand != User)
            && (o.code == 501 <==> s.lastCommand == User && |r.tokens| != 2)
            && (o.code in {230, 503, 501, 530})
  {
  }

  /** The commands that are for users only. */
  predicate ForUsers(c: FtpCommand) {
    c != User && c != Pass && c != Quit && c != Unrecognized
  }

  /** Without login they are answered by 530, and change and start nothing. */
  lemma NotLoggedInIff(s: State, env: Env, r: Request)
    requires RequestDefined(s, r) && ForUsers(r.command)
    ensures var o := Handle(s, env, r);
            && (o.code == 530 <==> s.loggedIn.None?)
            && (s.loggedIn.None? ==> o.effect == Nothing && o.state == s.(lastCommand := r.command))
  {
    hide PassiveText, Listing.Text;
  }

  /** LIST sends the text of a listing whenever someone is logged in. */
  lemma ListIff(s: State, env: Env, r: Request)
    requires RequestDefined(s, r) && r.command == List && s.loggedIn.Some?
    ensures var o := Handle(s, env, r);
            && o.code == 150 && o.effect == StartDownload(Listing.Text(env.listing))
            && o.state == s.(lastCommand := List)
  {
    hide Listing.Text;
  }

  /** RETR sends the file under working directory and argument exactly if an acceptor is open and the file there. */
  lemma RetrIff(s: State, env: Env, r: Request)
    requires RequestDefined(s, r) && r.command == Retr && s.loggedIn.Some?
    ensures var o := Handle(s, env, r);
            && o.state == s.(lastCommand := Retr)
            && (o.code == 425 <==> !s.acceptorOpen)
            && (s.acceptorOpen ==>
                  var path := s.workingDir + r.tokens[1];
                  if path in env.files then o.code == 150 && o.effect == StartDownload(env.files[path])
                  else o.code == 550 && o.effect == Nothing)
            && (!s.acceptorOpen ==> o.effect == Nothing)
  {
  }

  /** STOR starts an upload to working directory and argument exactly with one argument and an open acceptor. */
  lemma StorIff(s: State, env: Env, r: Request)
    requires RequestDefined(s, r) && r.command == Stor && s.loggedIn.Some?
    ensures var o := Handle(s, env, r);
            && o.state == s.(lastCommand := Stor)
            && (o.code == 150 <==> |r.tokens| == 2 && s.acceptorOpen)
            && (o.code == 150 ==> o.effect == StartUpload(s.workingDir + r.tokens[1]))
            && (o.code != 150 ==> o.effect == Nothing && o.code == if |r.tokens| != 2 then 501 else 425)
  {
  }

  /** DELE deletes its argument exactly if there is such a file. */
  lemma DeleIff(s: State, env: Env, r: Request)
    requires RequestDefined(s, r) && r.command == Dele && s.loggedIn.Some?
    ensures var o := Handle(s, env, r);
            && o.state == s.(lastCommand := Dele)
            && if r.tokens[1] in env.files then o.code == 250 && o.effect == Delete(r.tokens[1])
               else o.code == 550 && o.effect == Nothing
  {
  }

  /** CWD goes one directory down exactly with one argument. */
  lemma CwdIff(s: State, env: Env, r: Request)
    requires RequestDefined(s, r) && r.command == Cwd && s.loggedIn.Some?
    ensures var o := Handle(s, env, r);
            && o.effect == Nothing
            && if |r.tokens| == 2 then
                 o.code == 250 && o.state == s.(lastCommand := Cwd, workingDir := s.workingDir + r.tokens[1] + "/")
               else o.code == 501 && o.state == s.(lastCommand := Cwd)
  {
  }

  /** TYPE is taken as it comes, and QUIT forgets everything but that it was the last command. */
  lemma TypeAndQuit(s: State, env: Env, r: Request)
    requires RequestDefined(s, r)
    ensures var o := Handle(s, env, r);
            && (r.command == Type && s.loggedIn.Some? ==>
                  o.code == 200 && o.effect == Nothing && o.state == s.(lastCommand := Type))
            && (r.command == Quit ==>
                  && o.code == 221 && o.effect == Nothing
                  && o.state == State(None, "", Quit, "/", s.acceptorOpen))
  {
    hide PassiveText, Listing.Text;
  }

  /**
   PASV opens an acceptor, and its reply says which: 227 with the endpoint (of a 16-bit port), or
   421 if there is none.
   */
  lemma PasvIff(s: State, env: Env, r: Request)
    requires RequestDefined(s, r) && r.command == Pasv && s.loggedIn.Some?
    ensures var o := Handle(s, env, r);
            && o.effect == Nothing
            && (o.code == 227 <==> env.endpoint.Some?)
            && (env.endpoint.Some? ==>
                  && o.state == s.(lastCommand := Pasv, acceptorOpen := true)
                  && (env.endpoint.value.port < 0x1_0000 ==> EndpointIn(o.text) == Some(env.endpoint.value)))
            && (env.endpoint.None? ==>
                  o.code == 421 && o.state == s.(lastCommand := Pasv, acceptorOpen := env.openAfterFailure))
  {
    hide PassiveText, Find;
    if env.endpoint.Some? && env.endpoint.value.port < 0x1_0000 {
      var e := env.endpoint.value;
      assert "Entering passive mode " + PassiveText(e) == "Entering passive mode " + PassiveText(e) + "";
      EndpointReadBack("Entering passive mode ", e, "");
    }
  }

  // ---------------------------------------------------------------- what the history of commands says

  /** One recognised command of the session, with the code of its reply. */
  datatype Logged = Logged(command: FtpCommand, tokens: seq<string>, code: nat)

  function LogOf(o: Outcome, r: Request): Logged {
    Logged(r.command, r.tokens, o.code)
  }

  predicate SuccessfulPass(l: Logged) {
    l.command == Pass && l.code == 230
  }

  /** The name of the latest well-formed USER since the last QUIT. */
  function NameBy(log: seq<Logged>): string {
    if log == [] then ""
    else
      var last, before := log[|log| - 1], log[..|log| - 1];
      if last.command == Quit then ""
      else if last.command == User && |last.tokens| == 2 then last.tokens[1]
      else NameBy(before)
  }

  /** Who is logged in: decided by the latest of USER, QUIT and successful PASS alone. */
  function LoggedInBy(log: seq<Logged>): Option<U.User> {
    if log == [] then None
    else
      var last, before := log[|log| - 1], log[..|log| - 1];
      if last.command == User || last.command == Quit then None
      else if SuccessfulPass(last) && |last.tokens| == 2 then Some(U.User(NameBy(before), last.tokens[1]))
      else LoggedInBy(before)
  }

  /** The arguments of the CWD commands since the last QUIT that had one and came while someone was logged in. */
  function DirsBy(log: seq<Logged>): seq<string> {
    if log == [] then []
    else
      var last, before := log[|log| - 1], log[..|log| - 1];
      if last.command == Quit then []
      else if last.command == Cwd && LoggedInBy(before).Some? && |last.tokens| == 2 then
        DirsBy(before) + [last.tokens[1]]
      else DirsBy(before)
  }

  function LastBy(log: seq<Logged>): FtpCommand {
    if log == [] then Unrecognized else log[|log| - 1].command
  }

  /** "/" and every directory with "/" behind it. */
  function DirText(dirs: seq<string>): string {
    if dirs == [] then "/" else DirText(dirs[..|dirs| - 1]) + dirs[|dirs| - 1] + "/"
  }

  /** The command state is a function of the history. */
  ghost predicate Agrees(s: State, log: seq<Logged>) {
    && s.lastCommand == LastBy(log)
    && s.lastUsername == NameBy(log)
    && s.loggedIn == LoggedInBy(log)
    && s.workingDir == DirText(DirsBy(log))
  }

  /** Each successful PASS comes right behind a USER, in the history of recognised commands, and has its argument. */
  ghost predicate PassAfterUser(log: seq<Logged>) {
    forall i :: 0 <= i < |log| && SuccessfulPass(log[i]) ==>
      i > 0 && log[i - 1].command == User && |log[i].tokens| == 2
  }

  /** Of the USER, QUIT and successful PASS commands the latest is a PASS. */
  ghost predicate LatestIsPass(log: seq<Logged>) {
    exists i :: 0 <= i < |log| && SuccessfulPass(log[i])
      && forall j :: i < j < |log| ==> log[j].command != User && log[j].command != Quit
  }

  /** How one command changes the state; of the reply codes only that of PASS matters. */
  lemma HandleChanges(s: State, env: Env, r: Request)
    requires RequestDefined(s, r)
    ensures var o := Handle(s, env, r);
            && o.state.lastCommand == r.command
            && o.state.lastUsername ==
                 (if r.command == Quit then ""
                  else if r.command == User && |r.tokens| == 2 then r.tokens[1] else s.lastUsername)
            && o.state.loggedIn ==
                 (if r.command == User || r.command == Quit then None
                  else if r.command == Pass && o.code == 230 && |r.tokens| == 2
                  then Some(U.User(s.lastUsername, r.tokens[1])) else s.loggedIn)
            && o.state.workingDir ==
                 (if r.command == Quit then "/"
                  else if r.command == Cwd && s.loggedIn.Some? && |r.tokens| == 2 then s.workingDir + r.tokens[1] + "/"
                  else s.workingDir)
            && (o.code == 230 ==> s.lastCommand == User && |r.tokens| == 2)
  {
    hide PassiveText, Listing.Text;
  }

  lemma HandleAgrees(s: State, env: Env, r: Request, log: seq<Logged>)
    requires RequestDefined(s, r) && Agrees(s, log) && PassAfterUser(log)
    ensures var o := Handle(s, env, r);
            Agrees(o.state, log + [LogOf(o, r)]) && PassAfterUser(log + [LogOf(o, r)])
  {
    hide DirText, NameBy, LoggedInBy, DirsBy, Handle;
    var o := Handle(s, env, r);
    HandleChanges(s, env, r);
    LogSteps(log, LogOf(o, r));
    if r.command == Cwd && s.loggedIn.Some? && |r.tokens| == 2 {
      DirTextAppend(DirsBy(log), r.tokens[1]);
    }
    NoDirs();
  }

  lemma LogSteps(log: seq<Logged>, l: Logged)
    ensures LastBy(log + [l]) == l.command
    ensures NameBy(log + [l]) ==
            if l.command == Quit then ""
            else if l.command == User && |l.tokens| == 2 then l.tokens[1] else NameBy(log)
    ensures LoggedInBy(log + [l]) ==
            if l.command == User || l.command == Quit then None
            else if SuccessfulPass(l) && |l.tokens| == 2 then Some(U.User(NameBy(log), l.tokens[1]))
            else LoggedInBy(log)
    ensures DirsBy(log + [l]) ==
            if l.command == Quit then []
            else if l.command == Cwd && LoggedInBy(log).Some? && |l.tokens| == 2 then DirsBy(log) + [l.tokens[1]]
            else DirsBy(log)
  {
    assert (log + [l])[..|log|] == log;
  }

  lemma DirTextAppend(dirs: seq<string>, dir: string)
    ensures DirText(dirs + [dir]) == DirText(dirs) + dir + "/"
  {
    assert (dirs + [dir])[..|dirs|] == dirs;
  }

  lemma NoDirs()
    ensures DirText([]) == "/"
  {
  }

  /** Behind USER nobody is logged in, whatever came before. */
  lemma UserLogsOut(s: State, log: seq<Logged>)
    requires Agrees(s, log) && s.lastCommand == User
    ensures s.loggedIn == None
  {
  }

  /** A command behind the history decides anew, or leaves the decision as it was. */
  lemma LatestAppended(log: seq<Logged>, l: Logged)
    ensures LatestIsPass(log + [l]) <==>
              SuccessfulPass(l) || (LatestIsPass(log) && l.command != User && l.command != Quit)
  {
    var longer := log + [l];
    if SuccessfulPass(l) {
      assert SuccessfulPass(longer[|log|]);
    }
    if i :| 0 <= i < |log| && SuccessfulPass(log[i])
            && forall j :: i < j < |log| ==> log[j].command != User && log[j].command != Quit {
      assert SuccessfulPass(longer[i]) && longer[|log|] == l;
    }
    if i :| 0 <= i < |longer| && SuccessfulPass(longer[i])
            && forall j :: i < j < |longer| ==> longer[j].command != User && longer[j].command != Quit {
      if i < |log| {
        assert SuccessfulPass(log[i]) && longer[|log|] == l;
        assert forall j :: i < j < |log| ==> longer[j] == log[j];
      }
    }
  }

  /**
   Someone is logged in exactly when the history holds a successful PASS with neither USER nor
   QUIT behind it.
   */
  lemma {:induction false} LoggedInIff(log: seq<Logged>)
    requires PassAfterUser(log)
    ensures LoggedInBy(log).Some? <==> LatestIsPass(log)
  {
    hide LatestIsPass;
    if log != [] {
      var n := |log| - 1;
      LoggedInIff(log[..n]);
      LatestAppended(log[..n], log[n]);
      assert log == log[..n] + [log[n]];
    } else {
      NothingPassed();
    }
  }

  lemma NothingPassed()
    ensures !LatestIsPass([])
  {
  }

  // ---------------------------------------------------------------- keys

  /** A key under the directories: what STOR and RETR use, and what an HTTP client writes as URI. */
  function Key(dirs: seq<string>, name: string): string {
    DirText(dirs) + name
  }

  lemma {:induction false} KeyIsJoin(dirs: seq<string>, name: string)
    ensures Key(dirs, name) == Join([""] + dirs + [name], "/")
  {
    if dirs == [] {
      assert [""] + dirs + [name] == [""] + [name];
      JoinCons("", [name], "/");
    } else {
      var n := |dirs| - 1;
      KeyIsJoin(dirs[..n], dirs[n] + "/" + name);
      assert [""] + dirs + [name] == ([""] + dirs[..n]) + [dirs[n], name];
      JoinTail([""] + dirs[..n], dirs[n], name);
      assert Key(dirs, name) == DirText(dirs[..n]) + (dirs[n] + "/" + name);
    }
  }

  lemma {:induction false} JoinTail(front: seq<string>, a: string, b: string)
    ensures Join(front + [a, b], "/") == Join(front + [a + "/" + b], "/")
  {
    if front == [] {
      assert front + [a, b] == [a] + [b] && front + [a + "/" + b] == [a + "/" + b];
      JoinCons(a, [b], "/");
    } else {
      JoinTail(front[1..], a, b);
      assert front + [a, b] == [front[0]] + (front[1..] + [a, b]);
      assert front + [a + "/" + b] == [front[0]] + (front[1..] + [a + "/" + b]);
      JoinCons(front[0], front[1..] + [a, b], "/");
      JoinCons(front[0], front[1..] + [a + "/" + b], "/");
    }
  }

  /** No argument is its own key: a key begins with the "/" of the working directory. */
  lemma KeyIsLonger(dirs: seq<string>, name: string)
    ensures |Key(dirs, name)| > |name|
  {
  }

  /**
   DELE looks up its argument as it is. It removes a file that was stored as `name` under `dirs`
   exactly if its argument is the whole key, and so never if its argument is that name.
   */
  lemma DeleRemovesIff(s: State, env: Env, r: Request, dirs: seq<string>, name: string)
    requires RequestDefined(s, r) && r.command == Dele && s.loggedIn.Some? && Key(dirs, name) in env.files
    ensures Handle(s, env, r).effect == Delete(Key(dirs, name)) <==> r.tokens[1] == Key(dirs, name)
    ensures r.tokens[1] == name ==> Handle(s, env, r).effect != Delete(Key(dirs, name))
  {
    hide DirText;
    KeyIsLonger(dirs, name);
  }

  predicate Component(text: string) {
    '/' !in text
  }

  ghost predicate Components(dirs: seq<string>, name: string) {
    Component(name) && forall k :: 0 <= k < |dirs| ==> Component(dirs[k])
  }

  /** A key splits into its directories and its name exactly if none of them holds a '/'. */
  lemma KeyTokensIff(dirs: seq<string>, name: string)
    ensures Tokens(Key(dirs, name), "/") == [""] + dirs + [name] <==> Components(dirs, name)
  {
    hide DirText, TokensFrom, Join, Contains, Borderless, Tokens;
    var tokens := [""] + dirs + [name];
    SingleCharBorderless('/');
    KeyIsJoin(dirs, name);
    TokensOfJoinIff(tokens, "/");
    forall token ensures Contains(token, "/") <==> '/' in token {
      ContainsChar(token, '/');
    }
    assert |tokens| >= 2 && tokens != [""];
    assert forall k :: 0 <= k < |dirs| ==> tokens[k + 1] == dirs[k];
    assert tokens[|dirs| + 1] == name && tokens[0] == "";
  }

  /** Different directories or names give different keys, if no component holds a '/'. */
  lemma KeysAreInjective(dirs: seq<string>, name: string, dirs': seq<string>, name': string)
    requires Components(dirs, name) && Components(dirs', name')
    requires Key(dirs, name) == Key(dirs', name')
    ensures dirs == dirs' && name == name'
  {
    hide Key, Tokens, Components;
    KeyTokensIff(dirs, name);
    KeyTokensIff(dirs', name');
    var t, t' := [""] + dirs + [name], [""] + dirs' + [name'];
    assert t == t';
    assert t[1..|t| - 1] == dirs && t'[1..|t'| - 1] == dirs';
    assert t[|t| - 1] == name && t'[|t'| - 1] == name';
  }

  // ---------------------------------------------------------------- the PASV reply

  /** "(h1,h2,h3,h4,p1,p2)" (section 4.1.2 of RFC 959). */
  function PassiveText(e: Endpoint): string {
    "(" + Bytes(e.ip) + Decimal.ToString(e.port / 256 % 256) + "," + Decimal.ToString(e.port % 256) + ")"
  }

  function Bytes(ip: seq<nat>): string {
    if ip == [] then "" else Decimal.ToString(ip[0]) + "," + Bytes(ip[1..])
  }

  lemma {:induction false} BytesAppend(ip: seq<nat>, b: nat)
    ensures Bytes(ip + [b]) == Bytes(ip) + Decimal.ToString(b) + ","
  {
    hide Decimal.ToString;
    if ip == [] {
      assert [b][1..] == [] && [] + [b] == [b];
      assert Bytes([b]) == Decimal.ToString(b) + "," + Bytes([]);
    } else {
      var first := Decimal.ToString(ip[0]) + ",";
      BytesAppend(ip[1..], b);
      assert (ip + [b])[1..] == ip[1..] + [b];
      assert Bytes(ip + [b]) == first + Bytes(ip[1..] + [b]);
    }
  }

  method FormatPassive(e: Endpoint) returns (stream: string)
    ensures stream == PassiveText(e)
  {
    hide Bytes, Decimal.ToString;
    stream := "(";
    NoBytes();
    for i := 0 to |e.ip|
      invariant stream == "(" + Bytes(e.ip[..i])
    {
      BytesAppend(e.ip[..i], e.ip[i]);
      assert e.ip[..i + 1] == e.ip[..i] + [e.ip[i]];
      stream := stream + (Decimal.ToString(e.ip[i]) + ",");
    }
    assert e.ip[..|e.ip|] == e.ip;
    stream := stream + (Decimal.ToString(e.port / 256 % 256) + "," + Decimal.ToString(e.port % 256) + ")");
  }

  lemma NoBytes()
    ensures Bytes([]) == ""
  {
  }

  /** A client's reading of the parenthesised fields: decimal numbers separated by commas. */
  function ReadNumbers(fields: seq<string>): Option<seq<nat>> {
    if fields == [] then Some([])
    else
      var rest := ReadNumbers(fields[1..]);
      if rest.Some? && Decimal.AllDigits(fields[0]) then Some([Decimal.Value(fields[0])] + rest.value) else None
  }

  function ReadPassive(text: string): Option<Endpoint> {
    if |text| < 2 then None
    else
      var numbers := ReadNumbers(Tokens(text[1..|text| - 1], ","));
      if numbers.None? || |numbers.value| < 2 then None
      else
        var n := |numbers.value| - 2;
        Some(Endpoint(numbers.value[..n], 256 * numbers.value[n] + numbers.value[n + 1]))
  }

  function Numbers(ns: seq<nat>): (fields: seq<string>)
    ensures |fields| == |ns|
  {
    seq(|ns|, i requires 0 <= i < |ns| => Decimal.ToString(ns[i]))
  }

  lemma {:induction false} NumbersReadBack(ns: seq<nat>)
    ensures ReadNumbers(Numbers(ns)) == Some(ns)
  {
    hide Decimal.ToString, Decimal.Value;
    if ns != [] {
      NumbersReadBack(ns[1..]);
      assert Numbers(ns)[1..] == Numbers(ns[1..]);
      Decimal.ValueOfToString(ns[0]);
      assert ns == [ns[0]] + ns[1..];
    }
  }

  lemma {:induction false} BytesIsJoin(ip: seq<nat>, tail: seq<nat>)
    requires tail != []
    ensures Join(Numbers(ip + tail), ",") == Bytes(ip) + Join(Numbers(tail), ",")
  {
    hide Decimal.ToString, Join;
    if ip == [] {
      assert ip + tail == tail;
    } else {
      var first, rest := Decimal.ToString(ip[0]), Numbers(ip[1..] + tail);
      BytesIsJoin(ip[1..], tail);
      assert Numbers(ip + tail) == [first] + rest;
      assert rest != [];
      JoinCons(first, rest, ",");
      assert first + "," + (Bytes(ip[1..]) + Join(Numbers(tail), ",")) == Bytes(ip) + Join(Numbers(tail), ",");
    }
  }

  lemma DigitsFreeOf(text: string, c: char)
    requires Decimal.AllDigits(text) && !Decimal.IsDigit(c)
    ensures c !in text
  {
  }

  /** Reading the fields of the PASV reply back gives the address bytes and any 16-bit port. */
  lemma PassiveReadBack(e: Endpoint)
    requires e.port < 0x1_0000
    ensures ReadPassive(PassiveText(e)) == Some(e)
  {
    hide Decimal.ToString, Decimal.Value, Decimal.AllDigits, Bytes, Join, TokensFrom, ReadNumbers;
    var high, low := e.port / 256 % 256, e.port % 256;
    assert e.port == 256 * high + low;
    var all := e.ip + [high, low];
    BytesIsJoin(e.ip, [high, low]);
    assert Numbers([high, low]) == [Decimal.ToString(high)] + [Decimal.ToString(low)];
    JoinCons(Decimal.ToString(high), [Decimal.ToString(low)], ",");
    JoinOne(Decimal.ToString(low));
    var inner := Join(Numbers(all), ",");
    assert PassiveText(e) == "(" + inner + ")";
    assert PassiveText(e)[1..|PassiveText(e)| - 1] == inner;
    SingleCharBorderless(',');
    forall token | token in Numbers(all) ensures !Contains(token, ",") {
      DigitsFreeOf(token, ',');
      FreeOfChar(token, ",");
    }
    TokensOfJoin(Numbers(all), ",");
    NumbersReadBack(all);
    assert all[..|all| - 2] == e.ip;
  }

  lemma JoinOne(text: string)
    ensures Join([text], ",") == text
  {
  }

  /** What a client reads in a reply: the parenthesised part. */
  function EndpointIn(text: string): Option<Endpoint> {
    var start, end := Find(text, "(", 0), Find(text, ")", 0);
    if start == NPOS || end == NPOS || end < start then None else ReadPassive(text[start..end + 1])
  }

  lemma {:induction false} BytesFree(ip: seq<nat>)
    ensures '(' !in Bytes(ip) && ')' !in Bytes(ip)
  {
    if ip != [] {
      BytesFree(ip[1..]);
      DigitsFreeOf(Decimal.ToString(ip[0]), '(');
      DigitsFreeOf(Decimal.ToString(ip[0]), ')');
    }
  }

  /** Behind any text, and in front of any, the endpoint is found. */
  lemma EndpointReadBack(before: string, e: Endpoint, behind: string)
    requires '(' !in before && ')' !in before && e.port < 0x1_0000
    ensures EndpointIn(before + PassiveText(e) + behind) == Some(e)
  {
    hide Find, Bytes, ReadPassive, Contains, Borderless, Decimal.ToString;
    var high, low := Decimal.ToString(e.port / 256 % 256), Decimal.ToString(e.port % 256);
    var inner := Bytes(e.ip) + high + "," + low;
    BytesFree(e.ip);
    DigitsFreeOf(high, ')');
    DigitsFreeOf(low, ')');
    assert PassiveText(e) == "(" + inner + ")";
    var text := before + PassiveText(e) + behind;
    SingleCharBorderless('(');
    SingleCharBorderless(')');
    FreeOfChar(before, "(");
    FreeOfChar(before + "(" + inner, ")");
    assert text == before + "(" + (inner + ")" + behind);
    FindBehindToken(before, "(", inner + ")" + behind);
    assert text == (before + "(" + inner) + ")" + behind;
    FindBehindToken(before + "(" + inner, ")", behind);
    assert text[|before|..|before| + |PassiveText(e)|] == PassiveText(e);
    PassiveReadBack(e);
  }
}
