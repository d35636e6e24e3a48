/**
 One session (server/object_storage/src/session.cpp and the two handler files) as a step machine
 over values: the control and data pumps, the outstanding asynchronous operations, the FTP
 command state, and the transfers under way. Every handler is one atomic step of its strand;
 posted tasks, accepts, reads and write completions happen in any order.
 */
module SessionModel {
  import opened Wrappers
  import opened Messages
  import C = ControlPump
  import D = DataPump
  import F = FtpCommands
  import FtpParser
  import H = HttpHandlers
  import HttpParser
  import HttpResponse
  import Up = Upload
  import Utils

  /** An outstanding asynchronous read on the control socket. */
  datatype ControlRead =
    | LineRead
    | BodyRead(path: string, size: nat)

  /** What an outstanding accept on the data acceptor is for. */
  datatype Purpose = ForDownload(bytes: string) | ForUpload(path: string)

  /** Why the store was changed. */
  datatype Cause =
    | SavedUpload(transfer: nat)
    | PutBody(request: nat)
    | DeleCommand(command: nat)
    | DeleteRequest(request: nat)

  datatype StoreOp =
    | NoOp
    | AddFile(path: string, file: string, cause: Cause)
    | RemoveFile(path: string, cause: Cause)

  datatype Session = Session(
    ctl: C.Pump,
    pump: D.Pump,
    ftp: F.State,
    log: seq<F.Logged>,                  // history: recognised FTP commands
    requests: seq<HttpParser.Request>,   // history: HTTP requests
    bodies: map<nat, string>,            // history: the bodies received, by request
    startPosted: bool,                   // the task of start() that arms the first read
    inputs: seq<ControlRead>,            // outstanding reads on the control socket
    accepts: map<nat, Purpose>,          // outstanding accepts, by transfer
    uploads: map<nat, Up.Upload>,        // accepted uploads, by transfer
    closes: nat,                         // posted tasks that close the data socket
    current: Option<nat>,                // ftp_data_socket_
    origins: seq<nat>                    // history: the command that started each transfer
  )

  /** What a session meets outside its own state. */
  datatype Env = Env(ftp: F.Env, authenticate: bool)

  // ---------------------------------------------------------------- building blocks

  function Post(s: Session, m: Message): Session {
    s.(ctl := C.Post(s.ctl, m))
  }

  /** receiveMessage */
  function ArmRead(s: Session): Session {
    s.(inputs := s.inputs + [LineRead])
  }

  /** async_accept on the data acceptor for the transfer just announced. */
  function Begin(s: Session, purpose: Purpose): Session
    requires s.log != []
  {
    s.(accepts := s.accepts[|s.origins| := purpose], origins := s.origins + [|s.log| - 1])
  }

  function CloseCurrent(s: Session): Session {
    if s.current.None? then s else s.(pump := D.Close(s.pump, s.current.value))
  }

  // ---------------------------------------------------------------- control strand

  /** detectProtocol: the first line mentions HTTP. */
  predicate IsHttpPacket(packet: string) {
    var end := Utils.Find(packet, "\r\n", 0);
    var line := if end == Utils.NPOS then packet else packet[..end];
    Utils.Find(line, "HTTP", 0) != Utils.NPOS
  }

  predicate PacketDefined(s: Session, env: Env, packet: string) {
    if IsHttpPacket(packet) then
      HttpParser.Defined(packet) && H.RequestDefined(env.authenticate, HttpParser.Parse(packet))
    else
      FtpParser.Defined(packet) &&
      (FtpParser.Parse(packet).valid ==> F.RequestDefined(s.ftp, FtpParser.Parse(packet)))
  }

  /** The reply of a recognised command, and what it starts. */
  function Answered(s: Session, o: F.Outcome, r: FtpParser.Request): Session {
    var tag := if o.effect.StartDownload? || o.effect.StartUpload? then Opening(|s.origins|) else Plain;
    var t := Post(s, Reply(o.code, o.text, tag)).(ftp := o.state, log := s.log + [F.LogOf(o, r)]);
    match o.effect
    case StartDownload(bytes) => Begin(t, ForDownload(bytes))
    case StartUpload(path) => Begin(t, ForUpload(path))
    case _ => t
  }

  /** handleFtp on a parsed line. */
  function FtpLine(s: Session, env: Env, r: FtpParser.Request): (Session, StoreOp)
    requires r.valid ==> F.RequestDefined(s.ftp, r)
  {
    if !r.valid then (ArmRead(Post(s, Reply(500, "", Plain))), NoOp)
    else
      var o := F.Handle(s.ftp, env.ftp, r);
      (ArmRead(Answered(s, o, r)),
       if o.effect.Delete? then RemoveFile(o.effect.path, DeleCommand(|s.log|)) else NoOp)
  }

  function Http(tag: Tag): Message
    requires IsHttp(tag)
  {
    Message(HttpResponse.Serialized(tag.response), tag)
  }

  /** handleHttp on a parsed request. */
  function HttpRequest(s: Session, env: Env, r: HttpParser.Request): (Session, StoreOp)
    requires H.RequestDefined(env.authenticate, r)
  {
    var n := |s.requests|;
    var t := s.(requests := s.requests + [r]);
    match H.Handle(env.ftp.users, env.ftp.files, env.ftp.listing, env.authenticate, r)
    case Refuse(response) => (Post(t, Http(Refusal(n, response))), NoOp)
    case Respond(response) => (ArmRead(Post(t, Http(Answer(n, response)))), NoOp)
    case Remove(path, response) =>
      (ArmRead(Post(t, Http(Answer(n, response)))), RemoveFile(path, DeleteRequest(n)))
    case ReadBody(path, size, interim) =>
      var u := if interim then Post(t, Http(Interim(n, HttpResponse.OfStatus(HttpResponse.Continue)))) else t;
      (u.(inputs := u.inputs + [BodyRead(path, size)]), NoOp)
  }

  /** The line read completes; the packet is the whole head if it is an HTTP request. */
  function LineReceived(s: Session, env: Env, packet: string): (Session, StoreOp)
    requires PacketDefined(s, env, packet) && s.inputs != []
  {
    var t := s.(inputs := s.inputs[1..]);
    if IsHttpPacket(packet) then HttpRequest(t, env, HttpParser.Parse(packet))
    else FtpLine(t, env, FtpParser.Parse(packet))
  }

  /** The line read fails: the acceptor is closed, a close is posted, and the read is armed again. */
  function LineFailed(s: Session): Session
    requires s.inputs != []
  {
    ArmRead(s.(inputs := s.inputs[1..], ftp := s.ftp.(acceptorOpen := false), closes := s.closes + 1))
  }

  /** The body read of a PUT completes. */
  function BodyReceived(s: Session, env: Env, file: string, ok: bool): (Session, StoreOp)
    requires s.inputs != [] && s.inputs[0].BodyRead? && s.requests != []
  {
    var n, path := |s.requests| - 1, s.inputs[0].path;
    var response := H.BodyResponse(env.ftp.files, path, ok);
    var t := s.(inputs := s.inputs[1..], bodies := if ok then s.bodies[n := file] else s.bodies);
    (ArmRead(Post(t, Http(Answer(n, response)))),
     if ok && path !in env.ftp.files then AddFile(path, file, PutBody(n)) else NoOp)
  }

  // ---------------------------------------------------------------- data strand

  /** The accept handlers of LIST, RETR and STOR. */
  function Accepted(s: Session, id: nat): Session
    requires id in s.accepts
  {
    var t := s.(accepts := s.accepts - {id}, current := Some(id));
    match s.accepts[id]
    case ForDownload(bytes) => t.(pump := D.Accept(s.pump, D.Download(id, bytes)))
    case ForUpload(path) => t.(uploads := s.uploads[id := Up.Start(path)])
  }

  function AcceptFailed(s: Session, id: nat, reason: string): Session {
    Post(s.(accepts := s.accepts - {id}), Reply(426, "Data transfer aborted: " + reason, Aborted(id)))
  }

  /** The front task of the data pump; popping a terminator also posts 226. */
  function DataTask(s: Session): Session
    requires s.pump.tasks != [] && (s.pump.tasks[0].Send? ==> s.pump.buffer != [])
  {
    var t := s.(pump := D.RunTask(s.pump));
    if s.pump.tasks[0].Send? && s.pump.buffer[0].payload.None?
    then Post(t, Reply(226, "Done", Finished(s.pump.tasks[0].sock)))
    else t
  }

  /** The task of saveFile: store the file, answer, and close the current data socket. */
  function SaveTask(s: Session, env: Env, id: nat): (Session, StoreOp)
    requires id in s.uploads
  {
    var u := s.uploads[id];
    var saved := u.path !in env.ftp.files;
    var m := if saved then Reply(226, "File saved", Finished(id)) else Reply(450, "File not saved", Finished(id));
    (CloseCurrent(Post(s.(uploads := s.uploads[id := Up.Save(u)]), m)),
     if saved then AddFile(u.path, u.file, SavedUpload(id)) else NoOp)
  }

  // ---------------------------------------------------------------- steps

  datatype Event =
    | Starting
    | Line(packet: string)
    | LineFailing
    | Body(file: string)
    | BodyFailing
    | Control(ev: C.Event)                    // any step of the control pump except a post
    | Accepting(id: nat)
    | AcceptFailing(id: nat, reason: string)
    | DataTasking
    | Data(step: D.Event)                       // a transfer or completion of the data pump
    | UploadStep(id: nat, move: Up.Event)       // bytes arriving, the connection ending, a read
    | Saving(id: nat)
    | ClosingTask

  ghost predicate Enabled(s: Session, env: Env, e: Event) {
    match e
    case Starting => s.startPosted
    case Line(packet) => s.inputs != [] && s.inputs[0].LineRead? && PacketDefined(s, env, packet)
    case LineFailing => s.inputs != [] && s.inputs[0].LineRead?
    case Body(file) => s.inputs != [] && s.inputs[0].BodyRead? && |file| == s.inputs[0].size
    case BodyFailing => s.inputs != [] && s.inputs[0].BodyRead?
    case Control(ev) => !ev.Posting? && C.Enabled(s.ctl, ev)
    case Accepting(id) => id in s.accepts
    case AcceptFailing(id, _) => id in s.accepts
    case DataTasking => s.pump.tasks != []
    case Data(ev) => (ev.Transferring? || ev.Completing?) && D.Enabled(s.pump, ev)
    case UploadStep(id, ev) => !ev.Saving? && id in s.uploads && Up.Enabled(s.uploads[id], ev)
    case Saving(id) => id in s.uploads && Up.Enabled(s.uploads[id], Up.Saving)
    case ClosingTask => s.closes > 0
  }

  /** The part of the invariant under which every handler is defined. */
  ghost predicate Defined(s: Session) {
    && C.Inv(s.ctl) && D.Inv(s.pump)
    && (s.inputs != [] && s.inputs[0].BodyRead? ==> s.requests != [])
  }

  lemma SendHasFront(p: D.Pump)
    requires D.Inv(p) && p.tasks != [] && p.tasks[0].Send?
    ensures p.buffer != []
  {
    hide D.Inv;
    D.RunSendKeeps(p);
  }

  ghost function NextDataTask(s: Session): Session
    requires D.Inv(s.pump) && s.pump.tasks != []
  {
    if s.pump.tasks[0].Send? then SendHasFront(s.pump); DataTask(s) else DataTask(s)
  }

  ghost function Step(s: Session, env: Env, e: Event): (Session, StoreOp)
    requires Defined(s) && Enabled(s, env, e)
  {
    hide C.Inv, D.Inv, PacketDefined, D.Enabled, D.Next, C.Next, LineReceived, BodyReceived, SaveTask, Accepted;
    match e
    case Starting => (ArmRead(s.(startPosted := false)), NoOp)
    case Line(packet) => LineReceived(s, env, packet)
    case LineFailing => (LineFailed(s), NoOp)
    case Body(file) => BodyReceived(s, env, file, true)
    case BodyFailing => BodyReceived(s, env, "", false)
    case Control(ev) => (s.(ctl := C.Next(s.ctl, ev)), NoOp)
    case Accepting(id) => (Accepted(s, id), NoOp)
    case AcceptFailing(id, reason) => (AcceptFailed(s, id, reason), NoOp)
    case DataTasking => (NextDataTask(s), NoOp)
    case Data(ev) => (s.(pump := D.Next(s.pump, ev)), NoOp)
    case UploadStep(id, ev) => (s.(uploads := s.uploads[id := Up.Next(s.uploads[id], ev)]), NoOp)
    case Saving(id) => SaveTask(s, env, id)
    case ClosingTask => (CloseCurrent(s.(closes := s.closes - 1)), NoOp)
  }

  /** start(): the first read is posted, and an FTP client is greeted. */
  function Fresh(greet: bool): Session {
    var s := Session(C.Idle, D.Empty, F.Initial, [], [], map[], true, [], map[], map[], 0, None, []);
    if greet then Post(s, Reply(220, "Welcome to ObjectStorage server", Plain)) else s
  }
}
