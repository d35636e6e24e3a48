/**
 What clients are told about their changes is true: a session reports the success of an upload,
 PUT, DELE or DELETE exactly if that changed the store, in every run of the server.
 */
module ServerOutcomes {
  import opened Messages
  import opened SessionModel
  import opened SessionInvariants
  import opened SessionHistories
  import opened SessionStore
  import opened Server
  import opened ServerProperties
  import opened ServerAnswers
  import opened Wrappers
  import C = ControlPump
  import D = DataPump
  import F = FtpCommands
  import FtpParser
  import H = HttpHandlers
  import HttpParser
  import HttpResponse
  import Listing
  import MemoryFs
  import R = SessionRuns
  import StoreHistory
  import U = UserDatabase

  // ---------------------------------------------------------------- reports of success

  /** This message tells the client that its upload, PUT or DELETE changed the store. */
  ghost predicate MessageTells(m: Message, requests: seq<HttpParser.Request>, cause: Cause) {
    match cause
    case SavedUpload(t) => m == Reply(226, "File saved", Finished(t))
    case PutBody(n) => IsFinal(m.tag) && m.tag.request == n && m.tag.response.code == 201
    case DeleteRequest(n) =>
      && IsFinal(m.tag) && m.tag.request == n && m.tag.response.code == 200
      && n < |requests| && requests[n].valid && requests[n].method_ == HttpParser.Delete
    case DeleCommand(_) => false
  }

  /** This command of the history is a DELE that was answered by 250. */
  ghost predicate CommandTells(log: seq<F.Logged>, c: nat) {
    c < |log| && log[c].command == FtpParser.Dele && log[c].code == 250
  }

  /** The session has told its client that this change was made. */
  ghost predicate Tells(s: Session, cause: Cause) {
    || (exists k :: 0 <= k < |s.ctl.history| && MessageTells(s.ctl.history[k], s.requests, cause))
    || (cause.DeleCommand? && CommandTells(s.log, cause.command))
  }

  /** The session made the change. */
  ghost predicate Made(w: World, i: nat, cause: Cause) {
    |w.ops| == |w.makers| &&
    exists k :: 0 <= k < |w.ops| && w.makers[k] == i && w.ops[k] != NoOp && w.ops[k].cause == cause
  }

  // ---------------------------------------------------------------- one step tells what it does

  /** What a step tells is what it does. */
  ghost predicate StepTrue(s: Session, t: Session, m: Option<Message>, op: StoreOp, cause: Cause) {
    (op != NoOp && op.cause == cause) <==>
      || (m.Some? && MessageTells(m.value, t.requests, cause))
      || (cause.DeleCommand? && CommandTells(t.log, cause.command) && !CommandTells(s.log, cause.command))
  }

  lemma FtpTrue(s: Session, env: Env, r: FtpParser.Request, cause: Cause)
    requires r.valid ==> F.RequestDefined(s.ftp, r)
    ensures var (t, op) := FtpLine(s, env, r);
            StepTrue(s, t, Some(FtpMessage(s, env, r)), op, cause)
  {
    hide F.Handle, F.RequestDefined, Reply, C.Post;
    FtpTag(s, env, r);
    if r.valid {
      F.EffectsNeedLogin(s.ftp, env.ftp, r);
      if r.command == FtpParser.Dele {
        DeleTold(s, env, r);
      }
      assert FtpLine(s, env, r).0.log == s.log + [F.LogOf(F.Handle(s.ftp, env.ftp, r), r)];
    }
  }

  lemma HttpTrue(s: Session, env: Env, r: HttpParser.Request, cause: Cause)
    requires H.RequestDefined(env.authenticate, r)
    ensures var (t, op) := HttpRequest(s, env, r);
            StepTrue(s, t, HttpMessage(s, env, r), op, cause)
  {
    hide HttpParser.AuthInfoOf, HttpParser.AuthDefined, U.Verified, H.HandleGet, HttpResponse.Serialized,
      HttpResponse.Challenge, HttpResponse.OfStatus, C.Post, CommandTells, Reply, HttpResponse.SelfDelimiting;
    H.FinalCodes(env.ftp.users, env.ftp.files, env.ftp.listing, env.authenticate, r);
    H.BodyCodes(env.ftp.files, "", true);
    HttpExtends(s, env, r);
    HttpLeavesFtp(s, env, r);
    HttpMessageFits(s, env, r);
    assert (s.requests + [r])[|s.requests|] == r;
    if r.valid && r.method_ == HttpParser.Delete {
      DeleteTold(s, env, r);
    }
  }

  lemma LineTrue(s: Session, env: Env, packet: string, cause: Cause)
    requires PacketDefined(s, env, packet) && s.inputs != []
    ensures var (t, op) := LineReceived(s, env, packet);
            StepTrue(s, t, LineMessage(s, env, packet), op, cause)
  {
    hide F.RequestDefined, H.RequestDefined, HttpParser.Defined, HttpParser.Parse, FtpParser.Parse, FtpLine,
      HttpRequest, IsHttpPacket, FtpMessage, HttpMessage, MessageTells, CommandTells;
    var t := s.(inputs := s.inputs[1..]);
    if IsHttpPacket(packet) {
      HttpTrue(t, env, HttpParser.Parse(packet), cause);
      SameHttpMessage(s, t, env, HttpParser.Parse(packet));
    } else {
      FtpTrue(t, env, FtpParser.Parse(packet), cause);
      SameFtpMessage(s, t, env, FtpParser.Parse(packet));
    }
  }

  lemma BodyTrue(s: Session, env: Env, file: string, ok: bool, cause: Cause)
    requires BodyOutstanding(s) && s.requests != []
    ensures var (t, op) := BodyReceived(s, env, file, ok);
            StepTrue(s, t, Some(BodyMessage(s, env, ok)), op, cause)
  {
    hide HttpResponse.Serialized, HttpResponse.Reason, C.Post, CommandTells, Reply;
  }

  lemma RepliesDiffer(t: nat, x: nat)
    ensures Reply(450, "File not saved", Finished(t)) != Reply(226, "File saved", Finished(x))
  {
    hide Reply, HasCode;
    ReplyHasItsCode(450, "File not saved", Finished(t));
    ReplyHasItsCode(226, "File saved", Finished(x));
    assert HasCode(Reply(226, "File saved", Finished(x)).text, 226);
    assert !HasCode(Reply(450, "File not saved", Finished(t)).text, 226);
  }

  lemma SaveTrue(s: Session, env: Env, id: nat, cause: Cause)
    requires id in s.uploads
    ensures var (t, op) := SaveTask(s, env, id);
            var m := if s.uploads[id].path !in env.ftp.files then Reply(226, "File saved", Finished(id))
                     else Reply(450, "File not saved", Finished(id));
            StepTrue(s, t, Some(m), op, cause)
  {
    hide C.Post, CommandTells, Reply, D.Close;
    if cause.SavedUpload? {
      RepliesDiffer(id, cause.transfer);
    }
  }

  /** Messages about nothing that was changed. */
  lemma SilentMessage(m: Message, requests: seq<HttpParser.Request>, cause: Cause)
    requires m.tag.Aborted? || IsDone(m)
    ensures !MessageTells(m, requests, cause)
  {
    hide Reply, DoneReply;
    if cause.SavedUpload? {
      SavedIsNotDone(cause.transfer);
    }
  }

  /** The steps that change no file tell of none. */
  lemma OtherTrue(s: Session, env: Env, e: Event, cause: Cause)
    requires Defined(s) && Enabled(s, env, e) && !e.Line? && !e.Body? && !e.BodyFailing? && !e.Saving?
    ensures var (t, op) := Step(s, env, e);
            StepTrue(s, t, Posted(s, env, e), op, cause)
  {
    hide C.Inv, D.Inv, C.Next, D.Next, C.Enabled, D.Enabled, PacketDefined, C.Post, Reply, D.RunTask, D.Close, D.Accept,
      MessageTells, CommandTells;
    StepLeavesCommands(s, env, e);
    var m := Posted(s, env, e);
    if m.Some? {
      SilentMessage(m.value, Step(s, env, e).0.requests, cause);
    }
  }

  lemma StepIsTrue(s: Session, env: Env, e: Event, cause: Cause)
    requires Inv(s) && Enabled(s, env, e)
    ensures Defined(s)
    ensures var (t, op) := Step(s, env, e);
            StepTrue(s, t, Posted(s, env, e), op, cause)
  {
    hide Inv, C.Inv, D.Inv, Stages, Reading, Answers, Commands, Origins, Replies, Reported, UploadsSound,
      PacketDefined, LineReceived, LineMessage, BodyReceived, BodyMessage, SaveTask, Accepted, C.Next, D.Next,
      DataTask, Reply, StepTrue, C.Enabled, D.Enabled;
    R.InvParts(s);
    if e.Line? {
      LineTrue(s, env, e.packet, cause);
    } else if e.Body? {
      BodyTrue(s, env, e.file, true, cause);
    } else if e.BodyFailing? {
      BodyTrue(s, env, "", false, cause);
    } else if e.Saving? {
      SaveTrue(s, env, e.id, cause);
    } else {
      OtherTrue(s, env, e, cause);
    }
  }

  // ---------------------------------------------------------------- histories tell

  /** What an old message tells does not depend on later requests. */
  lemma OldMessageTells(s: Session, t: Session, k: nat, cause: Cause)
    requires Answers(s) && s.requests <= t.requests && k < |s.ctl.history|
    ensures MessageTells(s.ctl.history[k], s.requests, cause) <==> MessageTells(s.ctl.history[k], t.requests, cause)
  {
    hide FinalCount, HttpResponse.Serialized, HttpResponse.SelfDelimiting, Reply;
    assert Fits(s.ctl.history[k], FinalCount(s.ctl.history[..k]), |s.requests|);
  }

  /** After a step the session has told what it told before, and what the step did. */
  lemma ToldByStep(s: Session, env: Env, e: Event, cause: Cause)
    requires Inv(s) && Enabled(s, env, e)
    ensures Defined(s)
    ensures var (t, op) := Step(s, env, e);
            Tells(t, cause) <==> Tells(s, cause) || (op != NoOp && op.cause == cause)
  {
    hide Inv, Step, Enabled, Defined, Posted, Stages, Reading, Answers, Commands, Origins, Replies, Reported,
      UploadsSound, MessageTells, CommandTells, Extends;
    R.InvParts(s);
    StepIsTrue(s, env, e, cause);
    StepHistory(s, env, e);
    StepExtends(s, env, e);
    var t := Step(s, env, e).0;
    RequestsExtend(s, t);
    HistoryTells(s, t, Posted(s, env, e), cause);
    if cause.DeleCommand? {
      CommandStays(s.log, t.log, cause.command);
    }
  }

  lemma CommandStays(log: seq<F.Logged>, longer: seq<F.Logged>, c: nat)
    requires log <= longer
    ensures CommandTells(log, c) ==> CommandTells(longer, c)
  {
  }

  lemma HistoryTells(s: Session, t: Session, m: Option<Message>, cause: Cause)
    requires Answers(s) && s.requests <= t.requests && t.ctl.history == Appended(s.ctl.history, m)
    ensures (exists k :: 0 <= k < |t.ctl.history| && MessageTells(t.ctl.history[k], t.requests, cause)) <==>
              || (exists k :: 0 <= k < |s.ctl.history| && MessageTells(s.ctl.history[k], s.requests, cause))
              || (m.Some? && MessageTells(m.value, t.requests, cause))
  {
    hide Answers, MessageTells;
    var h, longer := s.ctl.history, t.ctl.history;
    forall k | 0 <= k < |h|
      ensures longer[k] == h[k]
      ensures MessageTells(h[k], s.requests, cause) <==> MessageTells(longer[k], t.requests, cause)
    {
      OldMessageTells(s, t, k, cause);
    }
    if m.Some? {
      assert longer[|h|] == m.value;
    }
  }

  // ---------------------------------------------------------------- in every run of the server

  ghost predicate AllTrue(w: World) {
    forall i, cause :: 0 <= i < |w.sessions| ==> (Tells(w.sessions[i], cause) <==> Made(w, i, cause))
  }

  lemma FreshTellsNothing(greet: bool, cause: Cause)
    ensures !Tells(Fresh(greet), cause)
  {
    hide Reply;
  }

  lemma MadeIff(w: World, i: nat, s: Session, op: StoreOp, j: nat, cause: Cause)
    requires |w.ops| == |w.makers| && i < |w.sessions|
    ensures Made(Recorded(w, i, s, op), j, cause) <==>
              Made(w, j, cause) || (i == j && op != NoOp && op.cause == cause)
  {
    hide StoreHistory.Applied;
    var v := Recorded(w, i, s, op);
    if k :| 0 <= k < |w.ops| && w.makers[k] == j && w.ops[k] != NoOp && w.ops[k].cause == cause {
      assert v.makers[k] == j && v.ops[k] == w.ops[k];
    }
    if op != NoOp {
      assert v.makers[|w.ops|] == i && v.ops[|w.ops|] == op;
    }
  }

  /** No session that has not connected yet made any change. */
  lemma NothingMade(w: World, i: nat, cause: Cause)
    requires OpsSound(w) && i >= |w.sessions|
    ensures !Made(w, i, cause)
  {
    hide Backed;
    forall k | 0 <= k < |w.ops| ensures w.makers[k] < |w.sessions| {
      assert OpSound(w, k);
    }
  }

  lemma ConnectTrue(w: World, greet: bool)
    requires AllTrue(w) && OpsSound(w)
    ensures AllTrue(w.(sessions := w.sessions + [Fresh(greet)]))
  {
    hide Tells, OpsSound, Fresh;
    var v := w.(sessions := w.sessions + [Fresh(greet)]);
    forall i, cause | 0 <= i < |v.sessions| ensures Tells(v.sessions[i], cause) <==> Made(v, i, cause) {
      assert Made(v, i, cause) <==> Made(w, i, cause);
      if i == |w.sessions| {
        FreshTellsNothing(greet, cause);
        NothingMade(w, i, cause);
      }
    }
  }

  lemma InTrue(w: World, i: nat, env: Env, e: Event)
    requires AllTrue(w) && OpsSound(w) && i < |w.sessions|
    requires Inv(w.sessions[i]) && Enabled(w.sessions[i], env, e)
    ensures Defined(w.sessions[i])
    ensures var (s, op) := Step(w.sessions[i], env, e); AllTrue(Recorded(w, i, s, op))
  {
    hide Inv, Enabled, Defined, Step, Tells, Made, StoreHistory.Applied, OpsSound;
    R.InvParts(w.sessions[i]);
    OpsPaired(w);
    var s, op := Step(w.sessions[i], env, e).0, Step(w.sessions[i], env, e).1;
    var v := Recorded(w, i, s, op);
    forall j: nat, cause | j < |v.sessions| ensures Tells(v.sessions[j], cause) <==> Made(v, j, cause) {
      MadeIff(w, i, s, op, j, cause);
      assert Tells(w.sessions[j], cause) <==> Made(w, j, cause);
      ToldByStep(w.sessions[i], env, e, cause);
    }
  }

  lemma OpsPaired(w: World)
    requires OpsSound(w)
    ensures |w.ops| == |w.makers|
  {
  }

  lemma NextTrue(w: World, turn: Turn)
    requires WorldInv(w) && TurnEnabled(w, turn) && AllTrue(w)
    ensures AllTrue(Next(w, turn))
  {
    hide Inv, WorldInv, Enabled, Step, Recorded, MemoryFs.IsListing, Tells, U.Inserted, OpsSound, StoreSound,
      SessionsSound, Fresh;
    WorldOps(w);
    match turn
    case Connect(greet) => ConnectTrue(w, greet);
    case AddUser(user) => AddUserTrue(w, user);
    case In(i, chance, event) =>
      WorldSession(w, i);
      InTrue(w, i, EnvOf(w, chance), event);
  }

  lemma WorldOps(w: World)
    requires WorldInv(w)
    ensures OpsSound(w)
  {
    hide OpsSound;
  }

  lemma AddUserTrue(w: World, user: U.User)
    requires AllTrue(w)
    ensures AllTrue(w.(users := U.Inserted(w.users, user)))
  {
    hide Tells, U.Inserted;
    var v := w.(users := U.Inserted(w.users, user));
    forall i, cause | 0 <= i < |v.sessions| ensures Tells(v.sessions[i], cause) <==> Made(v, i, cause) {
      assert Made(v, i, cause) <==> Made(w, i, cause);
    }
  }

  lemma {:induction false} RunTrue(w: World, turns: seq<Turn>)
    requires WorldInv(w) && ValidRun(w, turns) && AllTrue(w)
    ensures AllTrue(Exec(w, turns))
    decreases |turns|
  {
    hide WorldInv, AllTrue, TurnEnabled, Next;
    if turns != [] {
      NextKeeps(w, turns[0]);
      NextTrue(w, turns[0]);
      RunTrue(Next(w, turns[0]), turns[1..]);
    }
  }

  /**
   In every run of the server: a session tells its client that an upload, PUT, DELE or DELETE
   succeeded (by 226, 201, 250 or 200) exactly if that very upload, body, command or request
   changed the store.
   */
  lemma SuccessIsTold(w: World, i: nat, cause: Cause)
    requires Reachable(w) && i < |w.sessions|
    ensures Tells(w.sessions[i], cause) <==> Made(w, i, cause)
  {
    hide WorldInv, ValidRun, Exec, Tells, Made;
    var authenticate: bool, turns: seq<Turn> :|
      WorldInv(Empty(authenticate)) && ValidRun(Empty(authenticate), turns) && w == Exec(Empty(authenticate), turns);
    RunTrue(Empty(authenticate), turns);
  }

  // ---------------------------------------------------------------- what a client may conclude

  /** The final message at k is the one with its number among the final tags. */
  lemma {:induction false} TagAt(history: seq<Message>, k: nat)
    requires k < |history| && IsFinal(history[k].tag)
    ensures |R.FinalTags(history)| == FinalCount(history) && FinalCount(history[..k]) < FinalCount(history)
    ensures R.FinalTags(history)[FinalCount(history[..k])] == history[k].tag
  {
    var n := |history| - 1;
    var before := history[..n];
    TagsCount(before);
    if k < n {
      TagAt(before, k);
      assert before[..k] == history[..k];
    }
  }

  lemma {:induction false} TagsCount(history: seq<Message>)
    ensures |R.FinalTags(history)| == FinalCount(history)
  {
    if history != [] {
      TagsCount(history[..|history| - 1]);
    }
  }

  /** Whether the n-th final response is a 201 decides whether the session tells of a stored body. */
  lemma CreatedTells(s: Session, n: nat)
    requires Inv(s) && n < |R.FinalTags(s.ctl.history)|
    ensures IsFinal(R.FinalTags(s.ctl.history)[n])
    ensures R.FinalTags(s.ctl.history)[n].response.code == 201 <==> Tells(s, PutBody(n))
  {
    hide Inv, R.FinalTags, FinalCount, Numbered, Answers;
    R.InvParts(s);
    R.AnswersNumbered(s);
    var h := s.ctl.history;
    R.FinalsAnswerInOrder(h, |s.requests|);
    var at := TagInHistory(h, n);
    forall k | 0 <= k < |h| && IsFinal(h[k].tag) && h[k].tag.request == n
      ensures h[k].tag == R.FinalTags(h)[n]
    {
      TagAt(h, k);
      RequestIsCount(s, k);
    }
    assert MessageTells(h[at], s.requests, PutBody(n)) <==> h[at].tag.response.code == 201;
  }

  /** In every run the n-th final response of a session is a 201 exactly if the body of its n-th request was stored. */
  lemma CreatedIff(w: World, i: nat, n: nat)
    requires Reachable(w) && i < |w.sessions| && n < |R.FinalTags(w.sessions[i].ctl.history)|
    ensures IsFinal(R.FinalTags(w.sessions[i].ctl.history)[n])
    ensures R.FinalTags(w.sessions[i].ctl.history)[n].response.code == 201 <==> Made(w, i, PutBody(n))
  {
    hide Reachable, Inv, Tells, Made, R.FinalTags;
    ReachableSession(w, i);
    CreatedTells(w.sessions[i], n);
    SuccessIsTold(w, i, PutBody(n));
  }

  /**
   A client of an HTTP connection that has read a 201 as its n-th final response can conclude that
   the whole body of its n-th request was stored under its URI, and that until the URI is removed a
   GET of it answers with that body.
   */
  lemma CreatedIsServed(w: World, i: nat, n: nat, listing: seq<string>) returns (k: nat)
    requires Reachable(w) && i < |w.sessions| && R.AllHttp(w.sessions[i].ctl.history)
    requires var read := R.Finals(HttpResponse.ReadAll(w.sessions[i].ctl.wire));
             n < |read| && read[n].code == 201
    ensures var s := w.sessions[i];
            && k < |w.ops| == |w.makers| && w.makers[k] == i && n < |s.requests| && n in s.bodies
            && w.ops[k] == AddFile(s.requests[n].uri, s.bodies[n], PutBody(n))
            && (StoryEnds(w, k) || s.requests[n].uri == "/"
                || H.HandleGet(w.files, listing, s.requests[n].uri)
                   == HttpResponse.OfResource(HttpResponse.Ok, s.bodies[n]))
  {
    hide Reachable, Inv, R.FinalTags, R.Finals, HttpResponse.ReadAll, Numbered, FinalCount, HttpResponse.OfResource,
      C.Text, C.Inv, Admitted, H.HandleGet, Listing.Text;
    ReachableSession(w, i);
    var s := w.sessions[i];
    R.AnswersNumbered(s);
    C.WireIsPrefix(s.ctl);
    R.HistoryInOrder(s.ctl.history, |s.requests|, s.ctl.wire);
    CreatedIff(w, i, n);
    k := MadeAt(w, i, PutBody(n));
    PutIsBacked(w, k, i, n);
    if !StoryEnds(w, k) {
      StoredThenGet(w, k, i, listing);
    }
  }

  /** The path of change k was removed later. */
  ghost predicate StoryEnds(w: World, k: nat)
    requires k < |w.ops| && w.ops[k] != NoOp
  {
    !StoreHistory.NotRemovedAfter(w.ops, k, w.ops[k].path)
  }

  lemma MadeAt(w: World, i: nat, cause: Cause) returns (k: nat)
    requires Made(w, i, cause)
    ensures k < |w.ops| == |w.makers| && w.makers[k] == i && w.ops[k] != NoOp && w.ops[k].cause == cause
  {
    k :| 0 <= k < |w.ops| && w.makers[k] == i && w.ops[k] != NoOp && w.ops[k].cause == cause;
  }

  lemma PutIsBacked(w: World, k: nat, i: nat, n: nat)
    requires Reachable(w) && k < |w.ops| == |w.makers| && w.makers[k] == i && i < |w.sessions|
    requires w.ops[k] != NoOp && w.ops[k].cause == PutBody(n)
    ensures var s := w.sessions[i];
            n < |s.requests| && n in s.bodies && w.ops[k] == AddFile(s.requests[n].uri, s.bodies[n], PutBody(n))
  {
    hide Reachable, WorldInv, SessionsSound, StoreSound, Admitted;
    ReachableSound(w);
    assert OpSound(w, k);
  }
}
