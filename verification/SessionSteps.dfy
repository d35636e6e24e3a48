/** How the parts a handler changes make up one step of the session's machine. */
module SessionSteps {
  import opened Wrappers
  import opened Messages
  import S = SessionModel
  import SH = SessionHistories
  import R = SessionRuns
  import C = ControlPump
  import D = DataPump
  import F = FtpCommands
  import FtpParser
  import H = HttpHandlers
  import HttpParser
  import HttpResponse
  import Up = Upload

  /** The reply of an outcome was posted, as the announcement of transfer n if it starts one. */
  ghost predicate Replied(o: F.Outcome, n: nat, before: C.Pump, after: C.Pump) {
    after == C.Post(before, Reply(o.code, o.text,
      if o.effect.StartDownload? || o.effect.StartUpload? then Opening(n) else Plain))
  }

  /** The transfer of an effect, if any, waits for its connection; command c started it. */
  ghost predicate Waits(effect: F.Effect, c: nat, accepts: map<nat, S.Purpose>, origins: seq<nat>,
                        accepts': map<nat, S.Purpose>, origins': seq<nat>) {
    match effect
    case StartDownload(bytes) => accepts' == accepts[|origins| := S.ForDownload(bytes)] && origins' == origins + [c]
    case StartUpload(path) => accepts' == accepts[|origins| := S.ForUpload(path)] && origins' == origins + [c]
    case _ => accepts' == accepts && origins' == origins
  }

  /** From s to t the session did what a command line asks of it. */
  ghost predicate LineDone(s: S.Session, env: S.Env, r: FtpParser.Request, t: S.Session, op: S.StoreOp)
    requires r.valid ==> F.RequestDefined(s.ftp, r)
  {
    && t == s.(ctl := t.ctl, ftp := t.ftp, log := t.log, accepts := t.accepts, origins := t.origins,
               inputs := s.inputs + [S.LineRead])
    && if r.valid then
         var o := F.Handle(s.ftp, env.ftp, r);
         && op == (if o.effect.Delete? then S.RemoveFile(o.effect.path, S.DeleCommand(|s.log|)) else S.NoOp)
         && t.ftp == o.state && t.log == s.log + [F.LogOf(o, r)]
         && Replied(o, |s.origins|, s.ctl, t.ctl)
         && Waits(o.effect, |s.log|, s.accepts, s.origins, t.accepts, t.origins)
       else
         && t.ctl == C.Post(s.ctl, Reply(500, "", Plain)) && op == S.NoOp
         && t.ftp == s.ftp && t.log == s.log && t.accepts == s.accepts && t.origins == s.origins
  }

  lemma LineDoneIs(s: S.Session, env: S.Env, r: FtpParser.Request, t: S.Session, op: S.StoreOp)
    requires r.valid ==> F.RequestDefined(s.ftp, r)
    requires LineDone(s, env, r, t, op)
    ensures (t, op) == S.FtpLine(s, env, r)
  {
    hide F.Handle, F.RequestDefined, Reply, C.Post;
  }

  /** What an outcome asks for was done for request n: messages posted, reads armed, the store changed. */
  ghost predicate Served(o: H.Outcome, n: nat, ctl: C.Pump, inputs: seq<S.ControlRead>,
                         ctl': C.Pump, inputs': seq<S.ControlRead>, op: S.StoreOp) {
    match o
    case Refuse(response) =>
      ctl' == C.Post(ctl, S.Http(Refusal(n, response))) && inputs' == inputs && op == S.NoOp
    case Respond(response) =>
      ctl' == C.Post(ctl, S.Http(Answer(n, response))) && inputs' == inputs + [S.LineRead] && op == S.NoOp
    case Remove(path, response) =>
      && ctl' == C.Post(ctl, S.Http(Answer(n, response))) && inputs' == inputs + [S.LineRead]
      && op == S.RemoveFile(path, S.DeleteRequest(n))
    case ReadBody(path, size, interim) =>
      && ctl' == (if interim then C.Post(ctl, S.Http(Interim(n, HttpResponse.OfStatus(HttpResponse.Continue))))
                  else ctl)
      && inputs' == inputs + [S.BodyRead(path, size)] && op == S.NoOp
  }

  lemma ServedIs(s: S.Session, env: S.Env, r: HttpParser.Request, t: S.Session, op: S.StoreOp)
    requires H.RequestDefined(env.authenticate, r)
    requires t == s.(ctl := t.ctl, inputs := t.inputs, requests := s.requests + [r])
    requires Served(H.Handle(env.ftp.users, env.ftp.files, env.ftp.listing, env.authenticate, r), |s.requests|,
                    s.ctl, s.inputs, t.ctl, t.inputs, op)
    ensures (t, op) == S.HttpRequest(s, env, r)
  {
    hide H.Handle, H.RequestDefined, C.Post, S.Http, HttpResponse.OfStatus;
  }

  // ---------------------------------------------------------------- whole steps

  /** The step e led from s to t, changed the store by op, and kept everything a session keeps. */
  ghost predicate Took(s: S.Session, env: S.Env, e: S.Event, t: S.Session, op: S.StoreOp) {
    && SH.Inv(s) && S.Enabled(s, env, e) && S.Defined(s)
    && S.Step(s, env, e) == (t, op) && SH.Inv(t)
  }

  lemma DefinedThroughout(s: S.Session)
    requires SH.Inv(s)
    ensures S.Defined(s)
  {
    hide S.Defined;
    R.InvParts(s);
  }

  lemma StepTaken(s: S.Session, env: S.Env, e: S.Event)
    requires SH.Inv(s) && S.Enabled(s, env, e)
    ensures S.Defined(s) && Took(s, env, e, S.Step(s, env, e).0, S.Step(s, env, e).1)
  {
    hide SH.Inv, S.Enabled, S.Step, S.Defined;
    DefinedThroughout(s);
    SH.StepKeepsInv(s, env, e);
  }

  lemma TookKeeps(s: S.Session, e: S.Event, t: S.Session)
    requires forall env :: Took(s, env, e, t, S.NoOp)
    ensures SH.Inv(t)
  {
    hide SH.Inv;
    var env := S.Env(F.Env(map[], map[], [], None, false), false);
    assert Took(s, env, e, t, S.NoOp);
  }

  lemma TookInv(s: S.Session, env: S.Env, e: S.Event, t: S.Session, op: S.StoreOp)
    requires Took(s, env, e, t, op)
    ensures SH.Inv(t)
  {
    hide SH.Inv;
  }

  lemma WritingHasFront(s: S.Session)
    requires SH.Inv(s)
    ensures s.ctl.writing ==> s.ctl.queue != []
    ensures s.ctl.queue != [] ==> s.ctl.written <= |s.ctl.queue[0].text|
  {
    hide SH.Inv, D.Inv;
    DefinedThroughout(s);
  }

  /** Where a send step or a write of a file is outstanding, the buffer is not empty. */
  lemma SendHasFront(s: S.Session)
    requires SH.Inv(s)
    ensures s.pump.tasks != [] && s.pump.tasks[0].Send? ==> s.pump.buffer != []
    ensures s.pump.inflight.Some? ==> s.pump.buffer != []
  {
    hide SH.Inv, D.Inv, C.Inv;
    DefinedThroughout(s);
    if s.pump.tasks != [] && s.pump.tasks[0].Send? {
      S.SendHasFront(s.pump);
    }
    if s.pump.inflight.Some? {
      D.BufferWhileActive(s.pump);
    }
  }

  lemma ControlTaken(s: S.Session, env: S.Env, ev: C.Event)
    requires SH.Inv(s) && !ev.Posting? && C.Enabled(s.ctl, ev)
    ensures C.Inv(s.ctl) && Took(s, env, S.Control(ev), s.(ctl := C.Next(s.ctl, ev)), S.NoOp)
  {
    hide SH.Inv, C.Inv, D.Inv, C.Enabled, C.Next, Took;
    DefinedThroughout(s);
    StepTaken(s, env, S.Control(ev));
  }

  lemma DataTaken(s: S.Session, env: S.Env, ev: D.Event)
    requires SH.Inv(s) && (ev.Transferring? || ev.Completing?) && D.Enabled(s.pump, ev)
    ensures D.Inv(s.pump) && Took(s, env, S.Data(ev), s.(pump := D.Next(s.pump, ev)), S.NoOp)
  {
    hide SH.Inv, C.Inv, D.Inv, D.Enabled, D.Next, Took;
    DefinedThroughout(s);
    StepTaken(s, env, S.Data(ev));
  }

  lemma DataTaskParts(s: S.Session, t: S.Session)
    requires s.pump.tasks != [] && (s.pump.tasks[0].Send? ==> s.pump.buffer != [])
    requires t == s.(pump := D.RunTask(s.pump),
                     ctl := if s.pump.tasks[0].Send? && s.pump.buffer[0].payload.None?
                            then C.Post(s.ctl, Reply(226, "Done", Finished(s.pump.tasks[0].sock))) else s.ctl)
    ensures t == S.DataTask(s)
  {
    hide D.RunTask, C.Post, Reply;
  }

  lemma DataTaskTaken(s: S.Session, env: S.Env)
    requires SH.Inv(s) && s.pump.tasks != []
    ensures s.pump.tasks[0].Send? ==> s.pump.buffer != []
    ensures Took(s, env, S.DataTasking, S.DataTask(s), S.NoOp)
  {
    hide SH.Inv, C.Inv, D.Inv, S.DataTask, Took;
    DefinedThroughout(s);
    StepTaken(s, env, S.DataTasking);
    if s.pump.tasks[0].Send? {
      S.SendHasFront(s.pump);
    }
  }

  lemma LineTaken(s: S.Session, env: S.Env, packet: string)
    requires SH.Inv(s) && s.inputs != [] && s.inputs[0].LineRead? && S.PacketDefined(s, env, packet)
    ensures Took(s, env, S.Line(packet), S.LineReceived(s, env, packet).0, S.LineReceived(s, env, packet).1)
  {
    hide SH.Inv, C.Inv, D.Inv, S.PacketDefined, S.LineReceived, Took;
    DefinedThroughout(s);
    StepTaken(s, env, S.Line(packet));
  }

  lemma BodyTaken(s: S.Session, env: S.Env, file: string)
    requires SH.Inv(s) && s.inputs != [] && s.inputs[0].BodyRead? && |file| == s.inputs[0].size
    ensures s.requests != []
    ensures Took(s, env, S.Body(file), S.BodyReceived(s, env, file, true).0, S.BodyReceived(s, env, file, true).1)
  {
    hide SH.Inv, C.Inv, D.Inv, S.BodyReceived, Took;
    DefinedThroughout(s);
    StepTaken(s, env, S.Body(file));
  }

  lemma BodyFailureTaken(s: S.Session, env: S.Env)
    requires SH.Inv(s) && s.inputs != [] && s.inputs[0].BodyRead?
    ensures s.requests != []
    ensures Took(s, env, S.BodyFailing, S.BodyReceived(s, env, "", false).0, S.BodyReceived(s, env, "", false).1)
  {
    hide SH.Inv, C.Inv, D.Inv, S.BodyReceived, Took;
    DefinedThroughout(s);
    StepTaken(s, env, S.BodyFailing);
  }

  lemma SaveTaken(s: S.Session, env: S.Env, id: nat)
    requires SH.Inv(s) && id in s.uploads && s.uploads[id].phase == Up.SavePosted
    ensures Took(s, env, S.Saving(id), S.SaveTask(s, env, id).0, S.SaveTask(s, env, id).1)
  {
    hide SH.Inv, C.Inv, D.Inv, S.SaveTask, Took;
    DefinedThroughout(s);
    StepTaken(s, env, S.Saving(id));
  }

  lemma AcceptTaken(s: S.Session, env: S.Env, id: nat)
    requires SH.Inv(s) && id in s.accepts
    ensures Took(s, env, S.Accepting(id), S.Accepted(s, id), S.NoOp)
  {
    hide SH.Inv, C.Inv, D.Inv, S.Accepted, Took;
    DefinedThroughout(s);
    StepTaken(s, env, S.Accepting(id));
  }

  lemma UploadTaken(s: S.Session, env: S.Env, id: nat, move: Up.Event)
    requires SH.Inv(s) && id in s.uploads && !move.Saving? && Up.Enabled(s.uploads[id], move)
    ensures Took(s, env, S.UploadStep(id, move), s.(uploads := s.uploads[id := Up.Next(s.uploads[id], move)]), S.NoOp)
  {
    hide SH.Inv, C.Inv, D.Inv, Up.Next, Up.Enabled, Took;
    DefinedThroughout(s);
    StepTaken(s, env, S.UploadStep(id, move));
  }

  /** The steps that depend on nothing but one field. */
  lemma SimpleTaken(s: S.Session, env: S.Env)
    requires SH.Inv(s)
    ensures s.startPosted ==> Took(s, env, S.Starting, S.ArmRead(s.(startPosted := false)), S.NoOp)
    ensures s.inputs != [] && s.inputs[0].LineRead? ==> Took(s, env, S.LineFailing, S.LineFailed(s), S.NoOp)
    ensures s.closes > 0 ==> Took(s, env, S.ClosingTask, S.CloseCurrent(s.(closes := s.closes - 1)), S.NoOp)
    ensures forall id, reason :: id in s.accepts ==>
              Took(s, env, S.AcceptFailing(id, reason), S.AcceptFailed(s, id, reason), S.NoOp)
  {
    hide SH.Inv, C.Inv, D.Inv, Took, Reply, D.Close;
    DefinedThroughout(s);
    if s.startPosted { StepTaken(s, env, S.Starting); }
    if s.inputs != [] && s.inputs[0].LineRead? { StepTaken(s, env, S.LineFailing); }
    if s.closes > 0 { StepTaken(s, env, S.ClosingTask); }
    forall id: nat, reason: string | id in s.accepts
      ensures Took(s, env, S.AcceptFailing(id, reason), S.AcceptFailed(s, id, reason), S.NoOp)
    {
      StepTaken(s, env, S.AcceptFailing(id, reason));
    }
  }
}
