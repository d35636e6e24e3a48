/** What every step of a session keeps, aspect by aspect. */
module SessionInvariants {
  import opened Wrappers
  import opened Messages
  import opened SessionModel
  import C = ControlPump
  import D = DataPump
  import F = FtpCommands
  import FtpParser
  import H = HttpHandlers
  import HttpParser
  import HttpResponse
  import Up = Upload

  // ---------------------------------------------------------------- messages posted by one step

  /** The message a line gets at once, if any. */
  function LineMessage(s: Session, env: Env, packet: string): Option<Message>
    requires PacketDefined(s, env, packet)
  {
    if IsHttpPacket(packet) then HttpMessage(s, env, HttpParser.Parse(packet))
    else Some(FtpMessage(s, env, FtpParser.Parse(packet)))
  }

  function FtpMessage(s: Session, env: Env, r: FtpParser.Request): Message
    requires r.valid ==> F.RequestDefined(s.ftp, r)
  {
    if !r.valid then Reply(500, "", Plain)
    else
      var o := F.Handle(s.ftp, env.ftp, r);
      Reply(o.code, o.text, if o.effect.StartDownload? || o.effect.StartUpload? then Opening(|s.origins|) else Plain)
  }

  function HttpMessage(s: Session, env: Env, r: HttpParser.Request): Option<Message>
    requires H.RequestDefined(env.authenticate, r)
  {
    var n := |s.requests|;
    match H.Handle(env.ftp.users, env.ftp.files, env.ftp.listing, env.authenticate, r)
    case Refuse(response) => Some(Http(Refusal(n, response)))
    case Respond(response) => Some(Http(Answer(n, response)))
    case Remove(_, response) => Some(Http(Answer(n, response)))
    case ReadBody(_, _, interim) =>
      if interim then Some(Http(Interim(n, HttpResponse.OfStatus(HttpResponse.Continue)))) else None
  }

  /** The message a step posts, if any. */
  ghost function Posted(s: Session, env: Env, e: Event): Option<Message>
    requires Defined(s) && Enabled(s, env, e)
  {
    match e
    case Line(packet) => LineMessage(s, env, packet)
    case Body(_) => Some(BodyMessage(s, env, true))
    case BodyFailing => Some(BodyMessage(s, env, false))
    case AcceptFailing(id, reason) => Some(Reply(426, "Data transfer aborted: " + reason, Aborted(id)))
    case DataTasking =>
      if s.pump.tasks[0].Send? && (SendHasFront(s.pump); s.pump.buffer[0].payload.None?)
      then Some(Reply(226, "Done", Finished(s.pump.tasks[0].sock))) else None
    case Saving(id) =>
      Some(if s.uploads[id].path !in env.ftp.files then Reply(226, "File saved", Finished(id))
           else Reply(450, "File not saved", Finished(id)))
    case _ => None
  }

  function BodyMessage(s: Session, env: Env, ok: bool): Message
    requires s.inputs != [] && s.inputs[0].BodyRead? && s.requests != []
  {
    Http(Answer(|s.requests| - 1, H.BodyResponse(env.ftp.files, s.inputs[0].path, ok)))
  }

  function Appended(history: seq<Message>, m: Option<Message>): seq<Message> {
    if m.Some? then history + [m.value] else history
  }

  function PostedTo(p: C.Pump, m: Option<Message>): C.Pump {
    if m.Some? then C.Post(p, m.value) else p
  }

  lemma LinePosts(s: Session, env: Env, packet: string)
    requires PacketDefined(s, env, packet) && s.inputs != []
    ensures LineReceived(s, env, packet).0.ctl == PostedTo(s.ctl, LineMessage(s, env, packet))
  {
    hide F.Handle, F.RequestDefined, H.Handle, H.RequestDefined, HttpParser.Defined, HttpParser.Parse, FtpParser.Parse,
      HttpResponse.Serialized, Reply;
  }

  /** A step other than one of the control pump itself posts `Posted` and leaves the pump alone otherwise. */
  lemma StepPosts(s: Session, env: Env, e: Event)
    requires Defined(s) && Enabled(s, env, e)
    ensures !e.Control? ==> Step(s, env, e).0.ctl == PostedTo(s.ctl, Posted(s, env, e))
    ensures e.Control? ==> Posted(s, env, e) == None && Step(s, env, e).0.ctl == C.Next(s.ctl, e.ev)
  {
    hide Defined, PacketDefined, LineReceived, LineMessage, H.BodyResponse, HttpResponse.Serialized, Reply, D.RunTask,
      D.Next, C.Next, C.Inv, D.Inv, C.Post;
    if e.Line? {
      LinePosts(s, env, e.packet);
    }
  }

  lemma ControlKeepsHistory(p: C.Pump, ev: C.Event)
    requires C.Inv(p) && C.Enabled(p, ev) && !ev.Posting?
    ensures C.Next(p, ev).history == p.history
  {
  }

  /** The history of posted messages grows by what the step posts. */
  lemma StepHistory(s: Session, env: Env, e: Event)
    requires Defined(s) && Enabled(s, env, e)
    ensures Step(s, env, e).0.ctl.history == Appended(s.ctl.history, Posted(s, env, e))
  {
    hide Posted, Step, C.Inv, D.Inv, C.Next, PacketDefined;
    StepPosts(s, env, e);
    if e.Control? {
      ControlKeepsHistory(s.ctl, e.ev);
    }
  }

  lemma StepKeepsControl(s: Session, env: Env, e: Event)
    requires Defined(s) && Enabled(s, env, e)
    ensures C.Inv(Step(s, env, e).0.ctl)
  {
    hide Posted, Step, C.Inv, D.Inv, C.Next, PacketDefined, C.Post;
    StepPosts(s, env, e);
    if e.Control? {
      C.NextKeeps(s.ctl, e.ev);
    } else if Posted(s, env, e).Some? {
      C.PostKeeps(s.ctl, Posted(s, env, e).value);
    }
  }

  // ---------------------------------------------------------------- transfers

  predicate IsDownload(p: D.Pump, t: nat) {
    exists i :: 0 <= i < |p.accepted| && p.accepted[i].id == t
  }

  /** Transfer numbers are issued in order, and each is in one stage at a time. */
  ghost predicate Stages(s: Session) {
    && (forall t :: t in s.accepts ==> t < |s.origins| && t !in s.uploads && !IsDownload(s.pump, t))
    && (forall t :: t in s.uploads ==> t < |s.origins| && !IsDownload(s.pump, t))
    && (forall i :: 0 <= i < |s.pump.accepted| ==> s.pump.accepted[i].id < |s.origins|)
  }

  /** The part of a session the line handlers leave alone, apart from a transfer they begin. */
  ghost predicate LineFrame(s: Session, t: Session) {
    && t.pump == s.pump && t.uploads == s.uploads && t.closes == s.closes && t.current == s.current
    && t.startPosted == s.startPosted && t.bodies == s.bodies
    && (|| (t.origins == s.origins && t.accepts == s.accepts)
        || (|t.origins| == |s.origins| + 1 && t.origins[..|s.origins|] == s.origins
            && |s.origins| in t.accepts
            && t.accepts == s.accepts[|s.origins| := t.accepts[|s.origins|]]))
  }

  lemma FtpFrames(s: Session, env: Env, r: FtpParser.Request)
    requires r.valid ==> F.RequestDefined(s.ftp, r)
    ensures LineFrame(s, FtpLine(s, env, r).0)
  {
    hide F.Handle, F.RequestDefined, Reply, C.Post;
  }

  lemma HttpFrames(s: Session, env: Env, r: HttpParser.Request)
    requires H.RequestDefined(env.authenticate, r)
    ensures LineFrame(s, HttpRequest(s, env, r).0)
  {
    hide H.Handle, H.RequestDefined, Http, HttpResponse.OfStatus, C.Post;
  }

  lemma LineFrames(s: Session, env: Env, packet: string)
    requires PacketDefined(s, env, packet) && s.inputs != []
    ensures LineFrame(s, LineReceived(s, env, packet).0)
  {
    hide F.RequestDefined, H.RequestDefined, HttpParser.Defined, HttpParser.Parse, FtpParser.Parse, FtpLine,
      HttpRequest, IsHttpPacket;
    var t := s.(inputs := s.inputs[1..]);
    if IsHttpPacket(packet) {
      HttpFrames(t, env, HttpParser.Parse(packet));
    } else {
      FtpFrames(t, env, FtpParser.Parse(packet));
    }
  }

  lemma PumpStepAccepted(p: D.Pump, ev: D.Event)
    requires D.Inv(p) && D.Enabled(p, ev) && !ev.Accepting?
    ensures D.Next(p, ev).accepted == p.accepted
  {
  }

  /** A step of the session is at most one step of its data pump. */
  ghost function PumpEvent(s: Session, e: Event): Option<D.Event> {
    match e
    case Accepting(id) =>
      if id in s.accepts && s.accepts[id].ForDownload? then Some(D.Accepting(D.Download(id, s.accepts[id].bytes)))
      else None
    case DataTasking => Some(D.Running)
    case Data(step) => Some(step)
    case Saving(_) => if s.current.Some? then Some(D.Closing(s.current.value)) else None
    case ClosingTask => if s.current.Some? then Some(D.Closing(s.current.value)) else None
    case _ => None
  }

  lemma StepIsPumpStep(s: Session, env: Env, e: Event)
    requires Defined(s) && Enabled(s, env, e) && Stages(s)
    ensures var ev := PumpEvent(s, e);
            if ev.None? then Step(s, env, e).0.pump == s.pump
            else D.Enabled(s.pump, ev.value) && Step(s, env, e).0.pump == D.Next(s.pump, ev.value)
  {
    hide PacketDefined, LineReceived, H.BodyResponse, HttpResponse.Serialized, Reply, C.Next, C.Inv, D.Inv, C.Post,
      LineFrame, D.RunTask, D.Accept, D.Close, D.Transfer, D.Complete;
    if e.Line? {
      LineFrames(s, env, e.packet);
      FramePump(s, LineReceived(s, env, e.packet).0);
    }
  }

  lemma FramePump(s: Session, t: Session)
    requires LineFrame(s, t)
    ensures t.pump == s.pump
  {
  }

  lemma StepKeepsData(s: Session, env: Env, e: Event)
    requires Defined(s) && Enabled(s, env, e) && Stages(s)
    ensures D.Inv(Step(s, env, e).0.pump)
  {
    hide PacketDefined, C.Inv, D.Inv, Step, Enabled, D.Enabled, D.Next, Stages;
    StepIsPumpStep(s, env, e);
    if PumpEvent(s, e).Some? {
      D.NextKeeps(s.pump, PumpEvent(s, e).value);
    }
  }

  lemma StagesAfterLine(s: Session, t: Session)
    requires Stages(s) && LineFrame(s, t)
    ensures Stages(t)
  {
  }

  /** Apart from lines, a step leaves the command history alone, and of the command state changes the acceptor only. */
  lemma StepLeavesCommands(s: Session, env: Env, e: Event)
    requires Defined(s) && Enabled(s, env, e) && !e.Line?
    ensures var t := Step(s, env, e).0;
            t.log == s.log && t.ftp.(acceptorOpen := s.ftp.acceptorOpen) == s.ftp && t.origins == s.origins
  {
    hide PacketDefined, LineReceived, H.BodyResponse, Http, C.Next, C.Inv, D.Inv, C.Post, D.RunTask, D.Next, D.Close,
      D.Accept, Reply, Up.Next, Up.Enabled, C.Enabled, D.Enabled;
  }

  lemma RunTaskAccepted(p: D.Pump)
    requires p.tasks != [] && (p.tasks[0].Send? ==> p.buffer != [])
    ensures D.RunTask(p).accepted == p.accepted
  {
  }

  lemma StepLeavesAccepted(s: Session, env: Env, e: Event)
    requires Defined(s) && Enabled(s, env, e) && !e.Line? && !e.Accepting?
    ensures Step(s, env, e).0.pump.accepted == s.pump.accepted
  {
    hide PacketDefined, H.BodyResponse, Http, C.Next, C.Inv, D.Inv, C.Post, D.RunTask, D.Next, Reply, Up.Next,
      Up.Enabled;
    if e.Data? {
      PumpStepAccepted(s.pump, e.step);
    } else if e.DataTasking? {
      if s.pump.tasks[0].Send? {
        SendHasFront(s.pump);
      }
      RunTaskAccepted(s.pump);
    }
  }

  lemma StepLeavesAccepts(s: Session, env: Env, e: Event)
    requires Defined(s) && Enabled(s, env, e) && !e.Line? && !e.Accepting?
    ensures forall id :: id in Step(s, env, e).0.accepts ==>
              id in s.accepts && Step(s, env, e).0.accepts[id] == s.accepts[id]
  {
    hide PacketDefined, H.BodyResponse, Http, C.Next, C.Inv, D.Inv, C.Post, D.RunTask, D.Next, D.Close, D.Enabled,
      C.Enabled, Up.Next, Up.Enabled, Reply;
  }

  lemma PathKept(u: Up.Upload, move: Up.Event)
    requires Up.Enabled(u, move)
    ensures Up.Next(u, move).path == u.path
  {
  }

  lemma StepLeavesUploads(s: Session, env: Env, e: Event)
    requires Defined(s) && Enabled(s, env, e) && !e.Line? && !e.Accepting?
    ensures var t := Step(s, env, e).0;
            && t.uploads.Keys == s.uploads.Keys
            && (forall id :: id in s.uploads.Keys ==> t.uploads[id].path == s.uploads[id].path)
  {
    hide PacketDefined, H.BodyResponse, Http, C.Next, C.Inv, D.Inv, C.Post, D.RunTask, D.Next, D.Close, D.Enabled,
      C.Enabled, Up.Next, Up.Enabled, Reply;
    if e.UploadStep? {
      PathKept(s.uploads[e.id], e.move);
    }
  }

  /** Apart from lines and accepts, a step starts no transfer and moves none to another stage but its end. */
  lemma StepLeavesTransfers(s: Session, env: Env, e: Event)
    requires Defined(s) && Enabled(s, env, e) && !e.Line? && !e.Accepting?
    ensures var t := Step(s, env, e).0;
            && (forall id :: id in t.accepts ==> id in s.accepts && t.accepts[id] == s.accepts[id])
            && t.uploads.Keys == s.uploads.Keys
            && (forall id :: id in t.uploads ==> t.uploads[id].path == s.uploads[id].path)
            && t.pump.accepted == s.pump.accepted
  {
    hide Step, Enabled, Defined;
    StepLeavesAccepted(s, env, e);
    StepLeavesAccepts(s, env, e);
    StepLeavesUploads(s, env, e);
    var t := Step(s, env, e).0;
    assert forall id :: id in t.uploads <==> id in t.uploads.Keys;
  }

  lemma LineIsStep(s: Session, env: Env, packet: string)
    requires Defined(s) && Enabled(s, env, Line(packet))
    ensures Step(s, env, Line(packet)) == LineReceived(s, env, packet)
  {
    hide C.Inv, D.Inv, PacketDefined, LineReceived;
  }

  lemma AcceptIsStep(s: Session, env: Env, id: nat)
    requires Defined(s) && Enabled(s, env, Accepting(id))
    ensures Step(s, env, Accepting(id)).0 == Accepted(s, id)
  {
    hide C.Inv, D.Inv, PacketDefined, Accepted;
  }

  lemma StepKeepsStages(s: Session, env: Env, e: Event)
    requires Defined(s) && Enabled(s, env, e) && Stages(s)
    ensures Stages(Step(s, env, e).0)
  {
    hide Step, Defined, Stages, Accepted, LineReceived, LineFrame, PacketDefined, C.Enabled, D.Enabled, Up.Enabled;
    if e.Line? {
      LineIsStep(s, env, e.packet);
      LineFrames(s, env, e.packet);
      StagesAfterLine(s, LineReceived(s, env, e.packet).0);
    } else if e.Accepting? {
      AcceptIsStep(s, env, e.id);
      StagesAfterAccept(s, e.id);
    } else {
      StepLeavesCommands(s, env, e);
      StepLeavesTransfers(s, env, e);
      StagesAfterPump(s, Step(s, env, e).0);
    }
  }

  lemma StagesAfterPump(s: Session, t: Session)
    requires Stages(s) && t.origins == s.origins && t.pump.accepted == s.pump.accepted
    requires forall id :: id in t.accepts ==> id in s.accepts
    requires t.uploads.Keys == s.uploads.Keys
    ensures Stages(t)
  {
    assert forall id :: id in t.uploads <==> id in s.uploads.Keys;
  }

  lemma StagesAfterAccept(s: Session, id: nat)
    requires Stages(s) && id in s.accepts
    ensures Stages(Accepted(s, id))
  {
    var t := Accepted(s, id);
    assert t.pump.accepted == s.pump.accepted
        || t.pump.accepted == s.pump.accepted + [D.Download(id, s.accepts[id].bytes)];
    forall x | IsDownload(t.pump, x) && x != id ensures IsDownload(s.pump, x) {
      var i :| 0 <= i < |t.pump.accepted| && t.pump.accepted[i].id == x;
      assert s.pump.accepted[i].id == x;
    }
  }

  // ---------------------------------------------------------------- control reads

  ghost predicate Refused(history: seq<Message>) {
    exists k :: 0 <= k < |history| && history[k].tag.Refusal?
  }

  /**
   Exactly one read of the control socket is outstanding or about to be armed, unless a
   request was refused: then there is none.
   */
  ghost predicate Reading(s: Session) {
    && |s.inputs| + (if s.startPosted then 1 else 0) == (if Refused(s.ctl.history) then 0 else 1)
    && BodyMatches(s)
  }

  lemma RefusedAppended(history: seq<Message>, m: Option<Message>)
    ensures Refused(Appended(history, m)) <==> Refused(history) || (m.Some? && m.value.tag.Refusal?)
  {
    var longer := Appended(history, m);
    if k :| 0 <= k < |history| && history[k].tag.Refusal? {
      assert longer[k].tag.Refusal?;
    }
    if m.Some? {
      assert longer[|history|] == m.value;
    }
  }

  /** A body read belongs to the latest request, a PUT. */
  predicate BodyMatches(s: Session) {
    s.inputs != [] && s.inputs[0].BodyRead? ==>
      && s.requests != []
      && var r := s.requests[|s.requests| - 1];
         r.valid && r.method_ == HttpParser.Put && r.uri == s.inputs[0].path && r.resourceSize == s.inputs[0].size
  }

  lemma FtpReads(s: Session, env: Env, r: FtpParser.Request)
    requires r.valid ==> F.RequestDefined(s.ftp, r)
    requires s.inputs == []
    ensures FtpLine(s, env, r).0.inputs == [LineRead]
    ensures !FtpMessage(s, env, r).tag.Refusal?
  {
    hide F.Handle, F.RequestDefined, C.Post;
  }

  lemma HttpReads(s: Session, env: Env, r: HttpParser.Request)
    requires H.RequestDefined(env.authenticate, r) && s.inputs == []
    ensures var t := HttpRequest(s, env, r).0;
            var m := HttpMessage(s, env, r);
            && |t.inputs| == (if m.Some? && m.value.tag.Refusal? then 0 else 1)
            && BodyMatches(t)
  {
    hide H.RequestDefined, H.Authorized, H.HandleGet, HttpResponse.Serialized, C.Post, HttpResponse.Challenge,
      HttpResponse.OfStatus;
  }

  /** What a line leaves of the reads: one, unless it was refused. */
  lemma LineReads(s: Session, env: Env, packet: string)
    requires PacketDefined(s, env, packet) && |s.inputs| == 1
    ensures var t := LineReceived(s, env, packet).0;
            var m := LineMessage(s, env, packet);
            && |t.inputs| == (if m.Some? && m.value.tag.Refusal? then 0 else 1)
            && BodyMatches(t)
  {
    hide F.RequestDefined, H.RequestDefined, HttpParser.Defined, HttpParser.Parse, FtpParser.Parse, FtpLine,
      HttpRequest, IsHttpPacket, FtpMessage, HttpMessage;
    var t := s.(inputs := s.inputs[1..]);
    if IsHttpPacket(packet) {
      HttpReads(t, env, HttpParser.Parse(packet));
      SameHttpMessage(s, t, env, HttpParser.Parse(packet));
    } else {
      FtpReads(t, env, FtpParser.Parse(packet));
      SameFtpMessage(s, t, env, FtpParser.Parse(packet));
    }
  }

  lemma SameFtpMessage(s: Session, t: Session, env: Env, r: FtpParser.Request)
    requires s.ftp == t.ftp && s.origins == t.origins
    requires r.valid ==> F.RequestDefined(s.ftp, r)
    ensures FtpMessage(s, env, r) == FtpMessage(t, env, r)
  {
  }

  lemma SameHttpMessage(s: Session, t: Session, env: Env, r: HttpParser.Request)
    requires s.requests == t.requests && H.RequestDefined(env.authenticate, r)
    ensures HttpMessage(s, env, r) == HttpMessage(t, env, r)
  {
  }

  lemma StepKeepsReading(s: Session, env: Env, e: Event)
    requires Defined(s) && Enabled(s, env, e) && Reading(s)
    ensures Reading(Step(s, env, e).0)
  {
    hide PacketDefined, LineReceived, LineMessage, H.BodyResponse, HttpResponse.Serialized, C.Next, C.Inv, D.Inv,
      C.Post, Refused, D.RunTask, D.Next, D.Close;
    StepHistory(s, env, e);
    RefusedAppended(s.ctl.history, Posted(s, env, e));
    if e.Line? {
      LineReads(s, env, e.packet);
      LineFrames(s, env, e.packet);
    }
  }
}
