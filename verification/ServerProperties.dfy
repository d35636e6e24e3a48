/** What holds of the whole server in every run, from its start with an empty store. */
module ServerProperties {
  import opened Wrappers
  import opened SessionModel
  import opened SessionHistories
  import opened SessionStore
  import opened StoreHistory
  import opened Server
  import F = FtpCommands
  import FtpParser
  import H = HttpHandlers
  import HttpResponse
  import HttpSyntax
  import Listing
  import MemoryFs
  import R = SessionRuns
  import SessionInvariants
  import U = UserDatabase
  import Utils

  // ---------------------------------------------------------------- each session's share of a run

  /** The steps of session i, each with what it meets of the shared state at that moment. */
  ghost function Trace(w: World, turns: seq<Turn>, i: nat): seq<R.Move>
    requires WorldInv(w) && ValidRun(w, turns)
    decreases |turns|
  {
    if turns == [] then []
    else
      NextKeeps(w, turns[0]);
      (if turns[0].In? && turns[0].i == i then [R.Move(EnvOf(w, turns[0].chance), turns[0].event)] else [])
      + Trace(Next(w, turns[0]), turns[1..], i)
  }

  lemma WorldSession(w: World, i: nat)
    requires WorldInv(w) && i < |w.sessions|
    ensures Inv(w.sessions[i]) && Trusted(w.sessions[i], w.users, w.authenticate)
  {
    hide Inv, Trusted, StoreSound, OpsSound;
    SessionSound(w, i);
  }

  lemma NextSession(w: World, turn: Turn, i: nat)
    requires WorldInv(w) && TurnEnabled(w, turn) && i < |w.sessions|
    ensures Inv(w.sessions[i])
    ensures i < |Next(w, turn).sessions|
    ensures if turn.In? && turn.i == i then
              && Enabled(w.sessions[i], EnvOf(w, turn.chance), turn.event)
              && Next(w, turn).sessions[i] == R.After(w.sessions[i], R.Move(EnvOf(w, turn.chance), turn.event))
            else Next(w, turn).sessions[i] == w.sessions[i]
  {
    hide Inv, WorldInv, Enabled, Step, Applied, MemoryFs.IsListing, Fresh, U.Inserted;
    WorldSession(w, i);
  }

  /**
   Seen from one session, every run of the server is a run of that session alone: whatever holds
   in every run of a session holds among any other sessions.
   */
  lemma {:induction false} TraceIsRun(w: World, turns: seq<Turn>, i: nat)
    requires WorldInv(w) && ValidRun(w, turns) && i < |w.sessions|
    ensures Inv(w.sessions[i]) && R.ValidRun(w.sessions[i], Trace(w, turns, i))
    ensures i < |Exec(w, turns).sessions|
    ensures Exec(w, turns).sessions[i] == R.Exec(w.sessions[i], Trace(w, turns, i))
    decreases |turns|
  {
    hide Inv, WorldInv, TurnEnabled, Enabled, Next, R.After;
    WorldSession(w, i);
    if turns != [] {
      NextKeeps(w, turns[0]);
      NextSession(w, turns[0], i);
      TraceIsRun(Next(w, turns[0]), turns[1..], i);
      var rest := Trace(Next(w, turns[0]), turns[1..], i);
      if turns[0].In? && turns[0].i == i {
        var m := R.Move(EnvOf(w, turns[0].chance), turns[0].event);
        assert ([m] + rest)[1..] == rest;
      } else {
        assert [] + rest == rest;
      }
    }
  }

  /**
   Among any other sessions, from the moment it connects: the client of an HTTP connection reads
   the answers to its requests in their order, whatever the other sessions do meanwhile.
   */
  lemma ResponsesAmongSessions(w: World, turns: seq<Turn>, i: nat)
    requires WorldInv(w) && ValidRun(w, turns) && i < |w.sessions| && w.sessions[i] == Fresh(false)
    requires R.HttpMoves(Trace(w, turns, i))
    ensures i < |Exec(w, turns).sessions|
    ensures var s := Exec(w, turns).sessions[i];
            R.ReadInOrder(s.ctl.history, |s.requests|, R.Finals(HttpResponse.ReadAll(s.ctl.wire)))
  {
    hide Inv, WorldInv, Fresh, R.ReadInOrder, R.HttpMoves, R.ValidRun, R.Exec, R.Finals, HttpResponse.ReadAll,
      ValidRun, Exec, Trace;
    TraceIsRun(w, turns, i);
    R.ResponsesInRequestOrder(Trace(w, turns, i));
  }

  // ---------------------------------------------------------------- reachable states

  /** The server can get into this state from its start, with an empty store and no users. */
  ghost predicate Reachable(w: World) {
    exists authenticate: bool, turns: seq<Turn> ::
      WorldInv(Empty(authenticate)) && ValidRun(Empty(authenticate), turns) && w == Exec(Empty(authenticate), turns)
  }

  lemma ReachableSound(w: World)
    requires Reachable(w)
    ensures WorldInv(w) && SessionsSound(w) && StoreSound(w) && OpsSound(w)
  {
    hide SessionsSound, StoreSound, OpsSound, ValidRun, Exec;
  }

  /** Every run from the start leads to a reachable state. */
  lemma RunsReach(authenticate: bool, turns: seq<Turn>)
    requires WorldInv(Empty(authenticate)) && ValidRun(Empty(authenticate), turns)
    ensures Reachable(Exec(Empty(authenticate), turns))
  {
  }

  lemma ReachableSession(w: World, i: nat)
    requires Reachable(w) && i < |w.sessions|
    ensures Inv(w.sessions[i]) && Trusted(w.sessions[i], w.users, w.authenticate)
  {
    hide Inv, Trusted, Reachable, WorldInv, SessionsSound, StoreSound, OpsSound;
    ReachableSound(w);
    SessionSound(w, i);
  }

  // ---------------------------------------------------------------- transfers

  /**
   In every run, every data connection a session waits for or has accepted goes back to a command
   of its own, which was issued while someone was logged in: an upload to a STOR of exactly that
   path under the working directory of that moment, a download to a LIST or RETR.
   */
  lemma TransfersAreIssued(w: World, i: nat)
    requires Reachable(w) && i < |w.sessions|
    ensures var s := w.sessions[i];
            && (forall j, k :: 0 <= j < k < |s.origins| ==> s.origins[j] < s.origins[k] < |s.log|)
            && (forall t :: t in s.uploads ==> t < |s.origins| && IssuedStor(s.log, s.origins[t], s.uploads[t].path))
            && (forall k :: 0 <= k < |s.pump.accepted| ==>
                  var t := s.pump.accepted[k].id;
                  t < |s.origins| && IssuedDownload(s.log, s.origins[t]))
            && (forall t :: t in s.accepts ==> t < |s.origins|)
            && (forall t :: t in s.accepts ==>
                  match s.accepts[t]
                  case ForUpload(path) => IssuedStor(s.log, s.origins[t], path)
                  case ForDownload(_) => IssuedDownload(s.log, s.origins[t]))
  {
    hide Reachable, Inv, IssuedStor, IssuedDownload;
    ReachableSession(w, i);
    StagesAndOrigins(w.sessions[i]);
  }

  lemma StagesAndOrigins(s: Session)
    requires Inv(s)
    ensures SessionInvariants.Stages(s) && Origins(s)
  {
    hide Inv, SessionInvariants.Stages, Origins;
    R.InvParts(s);
  }

  // ---------------------------------------------------------------- the store

  /** In every run successful adds and removes of each path alternate, starting with an add. */
  lemma PathsAlternate(w: World, path: string)
    requires Reachable(w)
    ensures Alternates(OnPath(w.ops, path)) && Reflects(w.files, path, OnPath(w.ops, path))
  {
    hide Reachable, Inv, SessionsSound, OpsSound, Alternates, Reflects, OnPath, Applicable, Replay;
    ReachableSound(w);
    Alternation(w.ops, path);
  }

  /**
   Every visible file is the whole byte stream of one completed upload, or the whole body of one
   admitted PUT, of a session whose own command or request named that path.
   */
  lemma FilesAreWhole(w: World, path: string) returns (k: nat)
    requires Reachable(w) && path in w.files
    ensures k < |w.ops| == |w.makers| && w.makers[k] < |w.sessions|
    ensures Stands(w.ops, k, path, w.files[path])
    ensures var s := w.sessions[w.makers[k]];
            match w.ops[k].cause
            case SavedUpload(t) => IsUpload(s, t, path, w.files[path])
            case PutBody(n) => IsPut(s, n, path, w.files[path], w.users, w.authenticate)
            case _ => false
  {
    hide Reachable, WorldInv, SessionsSound, IsUpload, IsPut, NotRemovedAfter, Applicable, Replay;
    ReachableSound(w);
    FileIff(w.ops, path, w.files[path]);
    k :| Stands(w.ops, k, path, w.files[path]);
    assert OpSound(w, k);
  }

  /** Every removal goes back to a DELE of someone logged in, or to an admitted DELETE. */
  lemma RemovalsAreAsked(w: World, k: nat)
    requires Reachable(w) && k < |w.ops| && w.ops[k].RemoveFile?
    ensures |w.makers| == |w.ops| && w.makers[k] < |w.sessions|
    ensures var s := w.sessions[w.makers[k]];
            match w.ops[k].cause
            case DeleCommand(c) => IsDele(s, c, w.ops[k].path)
            case DeleteRequest(n) => IsDelete(s, n, w.ops[k].path, w.users, w.authenticate)
            case _ => false
  {
    hide Reachable, WorldInv, SessionsSound, StoreSound, IsDele, IsDelete;
    ReachableSound(w);
    assert OpSound(w, k);
  }

  /** No upload, body, command or request changes the store twice. */
  lemma ChangesOnce(w: World, j: nat, k: nat)
    requires Reachable(w) && j < k < |w.ops|
    ensures |w.makers| == |w.ops| && w.ops[j] != NoOp && w.ops[k] != NoOp
    ensures w.makers[j] == w.makers[k] ==> w.ops[j].cause != w.ops[k].cause
  {
    hide Reachable, WorldInv, SessionsSound, Applicable, Replay, OpSound;
    ReachableSound(w);
    NoNoOps(w);
  }

  /** Change k is an add by session i, and nobody has removed the path since. */
  ghost predicate StoredBy(w: World, k: nat, i: nat) {
    && k < |w.ops| == |w.makers| && w.makers[k] == i < |w.sessions|
    && w.ops[k].AddFile? && NotRemovedAfter(w.ops, k, w.ops[k].path)
    && match w.ops[k].cause
       case SavedUpload(t) => t in w.sessions[i].uploads
       case PutBody(n) => n in w.sessions[i].bodies
       case _ => false
  }

  /** The bytes that arrived for the upload, or as the body of the PUT, behind change k. */
  ghost function BytesOf(w: World, k: nat, i: nat): string
    requires StoredBy(w, k, i)
  {
    match w.ops[k].cause
    case SavedUpload(t) => w.sessions[i].uploads[t].stream
    case PutBody(n) => w.sessions[i].bodies[n]
  }

  lemma StandingAdd(w: World, k: nat, i: nat)
    requires Reachable(w) && StoredBy(w, k, i)
    ensures OpSound(w, k) && w.ops[k].path in w.files && w.files[w.ops[k].path] == w.ops[k].file
  {
    hide Reachable, WorldInv, SessionsSound, Applicable, Replay, NotRemovedAfter, OpSound;
    ReachableSound(w);
    FileIff(w.ops, w.ops[k].path, w.ops[k].file);
    assert Stands(w.ops, k, w.ops[k].path, w.ops[k].file);
  }

  /** Until its path is removed, what STOR or PUT received is in the store, whole. */
  lemma StoredWhole(w: World, k: nat, i: nat)
    requires Reachable(w) && StoredBy(w, k, i)
    ensures w.ops[k].path in w.files && w.files[w.ops[k].path] == BytesOf(w, k, i)
  {
    hide Reachable, IssuedStor, Admitted, NotRemovedAfter;
    StandingAdd(w, k, i);
  }

  /** The key of a STOR is made of the directories and the name of its command, that of a PUT is its URI. */
  lemma StoredUnderKey(w: World, k: nat, i: nat)
    requires Reachable(w) && StoredBy(w, k, i)
    ensures var s := w.sessions[i];
            match w.ops[k].cause
            case SavedUpload(t) =>
              && t < |s.origins| && s.origins[t] < |s.log|
              && var l := s.log[s.origins[t]];
                 && l.command == FtpParser.Stor && |l.tokens| == 2
                 && w.ops[k].path == F.Key(F.DirsBy(s.log[..s.origins[t]]), l.tokens[1])
            case PutBody(n) => n < |s.requests| && s.requests[n].uri == w.ops[k].path
  {
    hide Reachable, NotRemovedAfter, F.DirsBy, F.DirText, F.LoggedInBy, Admitted;
    StandingAdd(w, k, i);
  }

  /**
   So a GET of the key answers with the bytes that were received. The one key that is not served
   is "/", where GET answers with the listing.
   */
  lemma StoredThenGet(w: World, k: nat, i: nat, listing: seq<string>)
    requires Reachable(w) && StoredBy(w, k, i)
    ensures H.HandleGet(w.files, listing, w.ops[k].path) ==
              HttpResponse.OfResource(HttpResponse.Ok,
                if w.ops[k].path == "/" then Listing.Text(listing) else BytesOf(w, k, i))
  {
    hide Reachable, HttpResponse.OfResource, Listing.Text, StoredBy, BytesOf;
    StoredWhole(w, k, i);
  }

  /** And a RETR that leads to the key, in any session, sends them. */
  lemma StoredThenRetr(w: World, k: nat, i: nat, j: nat, met: F.Env, r: FtpParser.Request)
    requires Reachable(w) && StoredBy(w, k, i) && j < |w.sessions| && met.files == w.files
    requires F.RequestDefined(w.sessions[j].ftp, r) && r.command == FtpParser.Retr
    requires var ftp := w.sessions[j].ftp;
             ftp.loggedIn.Some? && ftp.acceptorOpen && ftp.workingDir + r.tokens[1] == w.ops[k].path
    ensures F.Handle(w.sessions[j].ftp, met, r).effect == F.StartDownload(BytesOf(w, k, i))
  {
    hide Reachable, StoredBy, BytesOf, F.PassiveText;
    StoredWhole(w, k, i);
  }

  /** The one key a STOR can write that GET does not serve: an empty name in the initial directory. */
  lemma RootCanBeStored(env: F.Env, user: U.User)
    ensures FtpParser.Defined("STOR \r\n")
    ensures FtpParser.Parse("STOR \r\n") == FtpParser.Request(true, FtpParser.Stor, ["STOR", ""])
    ensures var s := F.Initial.(loggedIn := Some(user), acceptorOpen := true);
            var r := FtpParser.Parse("STOR \r\n");
            F.RequestDefined(s, r) && F.Handle(s, env, r).effect == F.StartUpload("/")
  {
    StorLineTokens();
    assert "STOR \r\n"[..5] == "STOR ";
    assert Utils.Upper("STOR") == "STOR";
  }

  lemma StorLineTokens()
    ensures Utils.Tokens("STOR ", " ") == ["STOR", ""]
  {
    hide Utils.TokensFrom, Utils.Join;
    HttpSyntax.SingleCharBorderless(' ');
    HttpSyntax.FreeOfChar("STOR", " ");
    HttpSyntax.FreeOfChar("", " ");
    Utils.JoinCons("STOR", [""], " ");
    assert ["STOR"] + [""] == ["STOR", ""];
    LoneJoin();
    assert Utils.Join(["STOR", ""], " ") == "STOR" + " " + "" == "STOR ";
    Utils.TokensOfJoin(["STOR", ""], " ");
  }

  lemma LoneJoin()
    ensures Utils.Join([""], " ") == ""
  {
  }

  // ---------------------------------------------------------------- logins

  /**
   In every run: someone is logged in exactly if the latest of USER, QUIT and successful PASS is
   a PASS, which follows a USER directly; behind USER nobody is logged in; and whoever is logged
   in verifies against the user table as it is now, however many users were added since.
   */
  lemma LoginsHold(w: World, i: nat)
    requires Reachable(w) && i < |w.sessions|
    ensures var s := w.sessions[i];
            && s.ftp.loggedIn == F.LoggedInBy(s.log) && s.ftp.lastCommand == F.LastBy(s.log)
            && s.ftp.workingDir == F.DirText(F.DirsBy(s.log))
            && F.PassAfterUser(s.log) && (s.ftp.loggedIn.Some? <==> F.LatestIsPass(s.log))
            && (s.ftp.lastCommand == FtpParser.User ==> s.ftp.loggedIn == None)
            && (s.ftp.loggedIn.Some? ==> U.Verified(w.users, s.ftp.loggedIn.value))
  {
    hide Reachable, Inv, F.LoggedInBy, F.PassAfterUser, F.LatestIsPass, U.Verified, F.DirsBy, F.DirText, F.NameBy,
      F.LastBy;
    ReachableSession(w, i);
    R.InvParts(w.sessions[i]);
    F.LoggedInIff(w.sessions[i].log);
    if w.sessions[i].ftp.lastCommand == FtpParser.User {
      F.UserLogsOut(w.sessions[i].ftp, w.sessions[i].log);
    }
  }
}
