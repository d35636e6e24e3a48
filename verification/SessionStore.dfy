/** Which store changes a session makes, and what each of them goes back to. */
module SessionStore {
  import opened Wrappers
  import opened Messages
  import opened SessionModel
  import opened SessionInvariants
  import opened SessionHistories
  import C = ControlPump
  import D = DataPump
  import F = FtpCommands
  import FtpParser
  import H = HttpHandlers
  import HttpParser
  import HttpResponse
  import U = UserDatabase
  import Up = Upload

  // ---------------------------------------------------------------- causes

  /** The step that makes a change for this reason has been taken. */
  ghost predicate Spent(s: Session, cause: Cause) {
    match cause
    case SavedUpload(t) => t in s.uploads && s.uploads[t].phase == Up.Saved
    case PutBody(n) => n < FinalCount(s.ctl.history)
    case DeleCommand(c) => c < |s.log|
    case DeleteRequest(n) => n < |s.requests|
  }

  /** The request may be served: it is valid, and authorised if authentication is on. */
  ghost predicate Admitted(r: HttpParser.Request, users: U.Users, authenticate: bool) {
    r.valid && H.RequestDefined(authenticate, r) && H.Authorized(users, authenticate, r)
  }

  /** A file stored by STOR is the whole byte stream of an upload to a path its own command named. */
  ghost predicate IsUpload(s: Session, t: nat, path: string, file: string) {
    && t in s.uploads && t < |s.origins|
    && s.uploads[t].phase == Up.Saved && s.uploads[t].ended
    && s.uploads[t].path == path && s.uploads[t].stream == file
    && IssuedStor(s.log, s.origins[t], path)
  }

  /** A file stored by PUT goes to the URI of an admitted request and is the body received for it, as announced. */
  ghost predicate IsPut(s: Session, n: nat, path: string, file: string, users: U.Users, authenticate: bool) {
    && n < |s.requests| && Spent(s, PutBody(n))
    && Admitted(s.requests[n], users, authenticate)
    && s.requests[n].method_ == HttpParser.Put && s.requests[n].uri == path
    && n in s.bodies && s.bodies[n] == file && |file| == s.requests[n].resourceSize
  }

  ghost predicate IsDele(s: Session, c: nat, path: string) {
    && Issued(s.log, c, 250)
    && s.log[c].command == FtpParser.Dele && |s.log[c].tokens| >= 2 && s.log[c].tokens[1] == path
  }

  ghost predicate IsDelete(s: Session, n: nat, path: string, users: U.Users, authenticate: bool) {
    && n < |s.requests|
    && Admitted(s.requests[n], users, authenticate)
    && s.requests[n].method_ == HttpParser.Delete && s.requests[n].uri == path
  }

  /** A change of the store goes back to a command or request of the session that may make it. */
  ghost predicate Backed(s: Session, op: StoreOp, users: U.Users, authenticate: bool) {
    match op
    case NoOp => true
    case AddFile(path, file, SavedUpload(t)) => IsUpload(s, t, path, file)
    case AddFile(path, file, PutBody(n)) => IsPut(s, n, path, file, users, authenticate)
    case RemoveFile(path, DeleCommand(c)) => IsDele(s, c, path)
    case RemoveFile(path, DeleteRequest(n)) => IsDelete(s, n, path, users, authenticate)
    case _ => false
  }

  /** Who is logged in is known to the user table, and a PUT whose body is read was admitted. */
  ghost predicate Trusted(s: Session, users: U.Users, authenticate: bool) {
    && (s.ftp.loggedIn.Some? ==> U.Verified(users, s.ftp.loggedIn.value))
    && (BodyOutstanding(s) ==> s.requests != [] && Admitted(s.requests[|s.requests| - 1], users, authenticate))
  }

  // ---------------------------------------------------------------- histories only grow

  ghost predicate Extends(s: Session, t: Session) {
    && s.log <= t.log && s.requests <= t.requests && s.origins <= t.origins
    && FinalCount(s.ctl.history) <= FinalCount(t.ctl.history)
    && (forall n :: n in s.bodies ==> n in t.bodies && t.bodies[n] == s.bodies[n])
    && (forall x :: x in s.uploads && s.uploads[x].phase == Up.Saved ==> x in t.uploads && t.uploads[x] == s.uploads[x])
  }

  lemma HttpExtends(s: Session, env: Env, r: HttpParser.Request)
    requires H.RequestDefined(env.authenticate, r)
    ensures HttpRequest(s, env, r).0.requests == s.requests + [r]
  {
    hide H.RequestDefined, H.Handle, Http, C.Post, HttpResponse.OfStatus;
  }

  lemma LineExtends(s: Session, env: Env, packet: string)
    requires PacketDefined(s, env, packet) && s.inputs != []
    ensures var t := LineReceived(s, env, packet).0;
            s.log <= t.log && s.requests <= t.requests && s.origins <= t.origins
  {
    hide F.RequestDefined, H.RequestDefined, HttpParser.Defined, HttpParser.Parse, FtpParser.Parse, HttpRequest,
      IsHttpPacket, F.Handle, C.Post, Reply;
    var t := s.(inputs := s.inputs[1..]);
    if IsHttpPacket(packet) {
      HttpLeavesFtp(t, env, HttpParser.Parse(packet));
      HttpExtends(t, env, HttpParser.Parse(packet));
    }
  }

  lemma StepKeepsSaved(s: Session, env: Env, e: Event)
    requires Defined(s) && Enabled(s, env, e) && Stages(s) && UploadsSound(s)
    ensures forall x :: x in s.uploads && s.uploads[x].phase == Up.Saved ==>
              x in Step(s, env, e).0.uploads && Step(s, env, e).0.uploads[x] == s.uploads[x]
  {
    hide PacketDefined, LineReceived, H.BodyResponse, Http, C.Next, C.Inv, D.Inv, C.Post, D.RunTask, D.Next, D.Close,
      Reply, LineFrame;
    if e.Line? {
      LineFrames(s, env, e.packet);
      FrameUploads(s, LineReceived(s, env, e.packet).0);
    }
  }

  lemma StepExtends(s: Session, env: Env, e: Event)
    requires Inv(s) && Enabled(s, env, e)
    ensures Extends(s, Step(s, env, e).0)
  {
    hide Step, Posted, Enabled, Defined, Stages, Reading, Answers, Commands, Origins, Replies, Reported, UploadsSound,
      FinalCount;
    StepKeepsSaved(s, env, e);
    StepHistory(s, env, e);
    if Posted(s, env, e).Some? {
      FinalCountAppend(s.ctl.history, Posted(s, env, e).value);
    }
    StepRequests(s, env, e);
    if e.Line? {
      LineStepExtends(s, env, e.packet);
    } else {
      StepLeavesCommands(s, env, e);
    }
    if e.Body? {
      BodyIsNew(s);
    }
  }

  /** No body has been received for the request whose body is being read. */
  lemma BodyIsNew(s: Session)
    requires Answers(s) && BodyOutstanding(s)
    ensures s.requests != [] && |s.requests| - 1 !in s.bodies
  {
    hide FinalCount, Numbered;
  }

  lemma LineStepExtends(s: Session, env: Env, packet: string)
    requires Inv(s) && Enabled(s, env, Line(packet))
    ensures var t := Step(s, env, Line(packet)).0;
            s.log <= t.log && s.requests <= t.requests && s.origins <= t.origins
  {
    hide Step, C.Inv, D.Inv, PacketDefined, Stages, Reading, Answers, Commands, Origins, Replies, Reported,
      UploadsSound, LineReceived;
    LineIsStep(s, env, packet);
    LineExtends(s, env, packet);
  }

  ghost predicate Grown(users: U.Users, more: U.Users) {
    forall name :: name in users ==> name in more && more[name] == users[name]
  }

  lemma VerifiedGrows(users: U.Users, more: U.Users, user: U.User)
    requires U.Verified(users, user) && Grown(users, more)
    ensures U.Verified(more, user)
  {
  }

  lemma AdmittedGrows(r: HttpParser.Request, users: U.Users, more: U.Users, authenticate: bool)
    requires Admitted(r, users, authenticate) && Grown(users, more)
    ensures Admitted(r, more, authenticate)
  {
    hide H.RequestDefined;
  }

  /** What a change goes back to stays there, and new users take no permission away. */
  lemma BackedGrows(s: Session, t: Session, op: StoreOp, users: U.Users, more: U.Users, authenticate: bool)
    requires Backed(s, op, users, authenticate) && Extends(s, t) && Grown(users, more)
    ensures Backed(t, op, more, authenticate)
  {
    hide Admitted, Grown, FinalCount, F.LoggedInBy, F.DirsBy, F.DirText;
    match op
    case NoOp =>
    case AddFile(path, file, SavedUpload(x)) =>
      LogPrefix(s.log, t.log, s.origins[x]);
    case AddFile(path, file, PutBody(n)) =>
      AdmittedGrows(s.requests[n], users, more, authenticate);
    case RemoveFile(path, DeleCommand(c)) =>
      LogPrefix(s.log, t.log, c);
    case RemoveFile(path, DeleteRequest(n)) =>
      AdmittedGrows(s.requests[n], users, more, authenticate);
  }

  lemma LogPrefix(log: seq<F.Logged>, longer: seq<F.Logged>, o: nat)
    requires log <= longer && o < |log|
    ensures log[..o] == longer[..o] && log[o] == longer[o]
  {
  }

  // ---------------------------------------------------------------- each change is backed, possible and new

  /** What is asked of a change in the state t reached by making it in the state s. */
  ghost predicate Founded(s: Session, t: Session, op: StoreOp, env: Env) {
    && Backed(t, op, env.ftp.users, env.authenticate)
    && (op.AddFile? ==> op.path !in env.ftp.files)
    && (op.RemoveFile? ==> op.path in env.ftp.files)
    && (op != NoOp ==> !Spent(s, op.cause) && Spent(t, op.cause))
  }

  lemma FtpFounded(s: Session, env: Env, r: FtpParser.Request)
    requires r.valid ==> F.RequestDefined(s.ftp, r)
    requires Commands(s)
    ensures Founded(s, FtpLine(s, env, r).0, FtpLine(s, env, r).1, env)
  {
    hide F.Handle, F.RequestDefined, F.PassAfterUser, C.Post, Reply, F.LoggedInBy, F.DirsBy, F.DirText, F.NameBy,
      FinalCount;
    if r.valid {
      F.EffectsNeedLogin(s.ftp, env.ftp, r);
      var l := F.LogOf(F.Handle(s.ftp, env.ftp, r), r);
      assert (s.log + [l])[..|s.log|] == s.log;
    }
  }

  lemma HttpFounded(s: Session, env: Env, r: HttpParser.Request)
    requires H.RequestDefined(env.authenticate, r)
    ensures Founded(s, HttpRequest(s, env, r).0, HttpRequest(s, env, r).1, env)
  {
    hide HttpParser.AuthInfoOf, HttpParser.AuthDefined, U.Verified, H.HandleGet, HttpResponse.Serialized, C.Post,
      HttpResponse.Challenge, HttpResponse.OfStatus, FinalCount;
    assert (s.requests + [r])[|s.requests|] == r;
  }

  lemma LineFounded(s: Session, env: Env, packet: string)
    requires PacketDefined(s, env, packet) && s.inputs != [] && Commands(s)
    ensures Founded(s, LineReceived(s, env, packet).0, LineReceived(s, env, packet).1, env)
  {
    hide F.RequestDefined, H.RequestDefined, HttpParser.Defined, HttpParser.Parse, FtpParser.Parse, FtpLine,
      HttpRequest, IsHttpPacket, Commands, Backed, Spent;
    var t := s.(inputs := s.inputs[1..]);
    if IsHttpPacket(packet) {
      HttpFounded(t, env, HttpParser.Parse(packet));
      SameSpent(s, t);
    } else {
      SameSpent(s, t);
      FtpFounded(t, env, FtpParser.Parse(packet));
    }
  }

  lemma SameSpent(s: Session, t: Session)
    requires t == s.(inputs := t.inputs)
    ensures forall cause :: Spent(s, cause) <==> Spent(t, cause)
    ensures Commands(s) <==> Commands(t)
  {
    hide F.Agrees, F.PassAfterUser, FinalCount;
  }

  lemma SavingFounded(s: Session, env: Env, id: nat)
    requires Stages(s) && Origins(s) && UploadsSound(s)
    requires id in s.uploads && s.uploads[id].phase == Up.SavePosted
    ensures Founded(s, SaveTask(s, env, id).0, SaveTask(s, env, id).1, env)
  {
    hide IssuedStor, IssuedDownload, IsDownload, C.Post, Reply;
    UploadComplete(s.uploads[id]);
    assert IssuedStor(s.log, s.origins[id], s.uploads[id].path);
  }

  lemma UploadComplete(u: Up.Upload)
    requires Up.Inv(u) && u.phase != Up.Reading
    ensures u.file == u.stream && u.ended
  {
    assert u.stream[..u.consumed] == u.stream;
  }

  lemma BodyFounded(s: Session, env: Env, file: string, ok: bool)
    requires BodyOutstanding(s) && s.requests != [] && BodyMatches(s) && Answers(s)
    requires ok ==> |file| == s.inputs[0].size
    requires Trusted(s, env.ftp.users, env.authenticate)
    ensures Founded(s, BodyReceived(s, env, file, ok).0, BodyReceived(s, env, file, ok).1, env)
  {
    hide Admitted, HttpResponse.Serialized, H.BodyResponse, Numbered, FinalCount;
    var response := H.BodyResponse(env.ftp.files, s.inputs[0].path, ok);
    FinalCountAppend(s.ctl.history, Http(Answer(|s.requests| - 1, response)));
  }

  /** Every change of the store is backed, fits the store, and is made once only. */
  lemma StepFounded(s: Session, env: Env, e: Event)
    requires Inv(s) && Enabled(s, env, e) && Trusted(s, env.ftp.users, env.authenticate)
    ensures Founded(s, Step(s, env, e).0, Step(s, env, e).1, env)
  {
    hide Stages, Commands, Origins, Replies, Reported, UploadsSound, Answers, Trusted, PacketDefined, LineReceived,
      SaveTask, BodyReceived, Accepted, C.Inv, D.Inv, C.Next, D.Next, DataTask, Refused, Spent;
    if e.Line? {
      LineFounded(s, env, e.packet);
    } else if e.Saving? {
      SavingFounded(s, env, e.id);
    } else if e.Body? {
      BodyFounded(s, env, e.file, true);
    } else if e.BodyFailing? {
      BodyFounded(s, env, "", false);
    }
  }

  // ---------------------------------------------------------------- what clients are told

  /** The reply to a DELE is 250 exactly if the file was removed. */
  lemma DeleTold(s: Session, env: Env, r: FtpParser.Request)
    requires r.valid && F.RequestDefined(s.ftp, r) && r.command == FtpParser.Dele
    ensures var (t, op) := FtpLine(s, env, r);
            && |t.log| == |s.log| + 1
            && (t.log[|s.log|].code == 250 <==> op.RemoveFile?)
  {
    hide C.Post, Reply, F.PassiveText;
  }

  /** A DELETE that is not refused is answered by 200 if the file was removed, and by 404 otherwise. */
  lemma DeleteTold(s: Session, env: Env, r: HttpParser.Request)
    requires H.RequestDefined(env.authenticate, r) && r.valid && r.method_ == HttpParser.Delete
    ensures var (t, op) := HttpRequest(s, env, r);
            var m := HttpMessage(s, env, r);
            && m.Some?
            && (m.value.tag.Answer? ==> m.value.tag.response.code == if op.RemoveFile? then 200 else 404)
            && (!m.value.tag.Answer? ==> op == NoOp)
  {
    hide H.RequestDefined, H.Authorized, HttpResponse.Serialized, C.Post, HttpResponse.Challenge;
  }

  /** A client is told of success exactly if its upload, PUT, DELE or DELETE changed the store. */
  lemma OutcomeIsTold(s: Session, env: Env, e: Event)
    requires Inv(s) && Enabled(s, env, e)
    ensures Defined(s)
    ensures var (t, op) := Step(s, env, e);
            var m := Posted(s, env, e);
            && (e.Saving? ==> m == Some(if op.AddFile? then Reply(226, "File saved", Finished(e.id))
                                        else Reply(450, "File not saved", Finished(e.id))))
            && (e.Body? ==> m.Some? && m.value.tag.Answer?
                            && m.value.tag.response.code == if op.AddFile? then 201 else 404)
            && (e.BodyFailing? ==> op == NoOp && m.Some? && m.value.tag.Answer? && m.value.tag.response.code == 500)
  {
    hide Stages, Reading, Answers, Commands, Origins, Replies, Reported, UploadsSound, C.Inv, D.Inv, C.Post, D.Close,
      Reply, PacketDefined, HttpResponse.Serialized;
  }

  /** Saving adds the whole stream exactly if the path is free, with 226; else it adds nothing, with 450. */
  lemma SavingIs(s: Session, env: Env, id: nat)
    requires Inv(s) && Enabled(s, env, Saving(id))
    ensures Defined(s) && id in s.uploads
    ensures var (t, op) := Step(s, env, Saving(id));
            var u := s.uploads[id];
            && t.uploads == s.uploads[id := u.(phase := Up.Saved)]
            && if u.path !in env.ftp.files then
                 && op == AddFile(u.path, u.stream, SavedUpload(id))
                 && t.ctl.history == s.ctl.history + [Reply(226, "File saved", Finished(id))]
               else op == NoOp && t.ctl.history == s.ctl.history + [Reply(450, "File not saved", Finished(id))]
  {
    hide Stages, Reading, Answers, Commands, Origins, Replies, Reported, UploadsSound, C.Inv, D.Inv, D.Close, Reply,
      PacketDefined;
    SoundUpload(s, id);
    UploadComplete(s.uploads[id]);
  }

  lemma SoundUpload(s: Session, id: nat)
    requires UploadsSound(s)
    ensures id in s.uploads ==> Up.Inv(s.uploads[id])
  {
    hide Up.Inv;
  }

  // ---------------------------------------------------------------- trust

  lemma TrustedGrows(s: Session, users: U.Users, more: U.Users, authenticate: bool)
    requires Trusted(s, users, authenticate) && Grown(users, more)
    ensures Trusted(s, more, authenticate)
  {
    hide Admitted, Grown, U.Verified;
    if s.ftp.loggedIn.Some? {
      VerifiedGrows(users, more, s.ftp.loggedIn.value);
    }
    if BodyOutstanding(s) {
      AdmittedGrows(s.requests[|s.requests| - 1], users, more, authenticate);
    }
  }

  lemma LoginVerifies(s: F.State, env: F.Env, r: FtpParser.Request)
    requires F.RequestDefined(s, r)
    requires s.loggedIn.Some? ==> U.Verified(env.users, s.loggedIn.value)
    ensures var t := F.Handle(s, env, r).state; t.loggedIn.Some? ==> U.Verified(env.users, t.loggedIn.value)
  {
    hide F.PassiveText, U.Verified;
  }

  lemma FtpTrusted(s: Session, env: Env, r: FtpParser.Request)
    requires r.valid ==> F.RequestDefined(s.ftp, r)
    requires s.inputs == []
    requires s.ftp.loggedIn.Some? ==> U.Verified(env.ftp.users, s.ftp.loggedIn.value)
    ensures Trusted(FtpLine(s, env, r).0, env.ftp.users, env.authenticate)
  {
    hide F.Handle, F.RequestDefined, C.Post, Reply, U.Verified, Admitted;
    if r.valid {
      LoginVerifies(s.ftp, env.ftp, r);
    }
  }

  lemma HttpTrusted(s: Session, env: Env, r: HttpParser.Request)
    requires H.RequestDefined(env.authenticate, r) && s.inputs == []
    requires s.ftp.loggedIn.Some? ==> U.Verified(env.ftp.users, s.ftp.loggedIn.value)
    ensures Trusted(HttpRequest(s, env, r).0, env.ftp.users, env.authenticate)
  {
    hide H.RequestDefined, H.Authorized, H.HandleGet, Http, C.Post, HttpResponse.Challenge, HttpResponse.OfStatus,
      U.Verified;
  }

  lemma LineTrusted(s: Session, env: Env, packet: string)
    requires PacketDefined(s, env, packet) && |s.inputs| == 1
    requires Trusted(s, env.ftp.users, env.authenticate)
    ensures Trusted(LineReceived(s, env, packet).0, env.ftp.users, env.authenticate)
  {
    hide F.RequestDefined, H.RequestDefined, HttpParser.Defined, HttpParser.Parse, FtpParser.Parse, FtpLine,
      HttpRequest, IsHttpPacket, Admitted, U.Verified;
    var t := s.(inputs := s.inputs[1..]);
    if IsHttpPacket(packet) {
      HttpTrusted(t, env, HttpParser.Parse(packet));
    } else {
      FtpTrusted(t, env, FtpParser.Parse(packet));
    }
  }

  lemma StepKeepsTrusted(s: Session, env: Env, e: Event)
    requires Inv(s) && Enabled(s, env, e) && Trusted(s, env.ftp.users, env.authenticate)
    ensures Trusted(Step(s, env, e).0, env.ftp.users, env.authenticate)
  {
    hide Stages, Commands, Origins, Replies, Reported, UploadsSound, Answers, PacketDefined, LineReceived, Admitted,
      C.Inv, D.Inv, C.Next, D.Next, D.Close, D.RunTask, H.BodyResponse, Http, C.Post, Refused, U.Verified, BodyMatches;
    if e.Line? {
      LineTrusted(s, env, e.packet);
    }
  }

  lemma FreshTrusted(greet: bool, users: U.Users, authenticate: bool)
    ensures Trusted(Fresh(greet), users, authenticate)
  {
    hide Reply;
  }
}
