/**
 What a session does with a line, in terms of the bytes received: which lines are HTTP requests,
 what an FTP client is answered, and what a request changes.
 */
module SessionLines {
  import opened Wrappers
  import opened Messages
  import opened SessionModel
  import opened SessionInvariants
  import opened SessionHistories
  import C = ControlPump
  import D = DataPump
  import Decimal
  import F = FtpCommands
  import FtpParser
  import H = HttpHandlers
  import HttpAdmission
  import HttpParser
  import HttpRequests
  import HttpResponse
  import HttpSyntax
  import Listing
  import R = SessionRuns
  import U = UserDatabase
  import Utils

  // ---------------------------------------------------------------- which lines are HTTP requests

  /** A packet is an HTTP request exactly if its first line mentions HTTP, wherever and in whatever. */
  lemma DetectedIff(line: string, rest: string)
    requires '\r' !in line
    ensures IsHttpPacket(line + "\r\n" + rest) <==> Utils.Contains(line, "HTTP")
  {
    hide Utils.Find, Utils.Contains;
    var packet := line + "\r\n" + rest;
    HttpRequests.FirstLineEnd(line, rest);
    assert packet[..|line|] == line;
    FoundIff(line, "HTTP");
  }

  lemma FoundIff(text: string, pattern: string)
    ensures Utils.Find(text, pattern, 0) != Utils.NPOS <==> Utils.Contains(text, pattern)
  {
  }

  /** Every request line of HTTP/1.1 is detected. */
  lemma RequestLineDetected(m: HttpParser.HttpMethod, uri: string)
    requires m != HttpParser.Unrecognized
    ensures Utils.Contains(HttpRequests.RequestLine(m, uri, "HTTP/1.1"), "HTTP")
  {
    var head := HttpRequests.MethodName(m) + " " + uri + " ";
    var line := HttpRequests.RequestLine(m, uri, "HTTP/1.1");
    assert line == head + "HTTP/1.1" && "HTTP/1.1"[..4] == "HTTP";
    assert line[|head|..|head| + 4] == "HTTP";
    assert Utils.OccursAt(line, "HTTP", |head|);
  }

  /** So an FTP command that mentions HTTP is taken for a request: here, an upload of a file of that name. */
  lemma HttpNameIsTaken()
    ensures IsHttpPacket("STOR HTTP.txt\r\n")
  {
    hide IsHttpPacket;
    var line := "STOR HTTP.txt";
    assert line[5..9] == "HTTP";
    assert Utils.OccursAt(line, "HTTP", 5);
    DetectedIff(line, "");
    assert line + "\r\n" + "" == "STOR HTTP.txt\r\n";
  }

  // ---------------------------------------------------------------- requests

  /** The session has taken r as its next request, and has sent nothing but HTTP. */
  ghost predicate TakenAsRequest(s: Session, t: Session, r: HttpParser.Request) {
    && t.requests == s.requests + [r]
    && t.log == s.log && t.ftp == s.ftp && t.accepts == s.accepts && t.origins == s.origins
    && s.ctl.history <= t.ctl.history
    && forall k :: |s.ctl.history| <= k < |t.ctl.history| ==> IsHttp(t.ctl.history[k].tag)
  }

  lemma HttpTaken(s: Session, env: Env, packet: string)
    requires PacketDefined(s, env, packet) && s.inputs != [] && IsHttpPacket(packet)
    ensures HttpParser.Defined(packet)
    ensures TakenAsRequest(s, LineReceived(s, env, packet).0, HttpParser.Parse(packet))
  {
    hide HttpParser.Defined, HttpParser.Parse, H.RequestDefined, HttpRequest, HttpMessage, IsHttpPacket, C.Post;
    var t := s.(inputs := s.inputs[1..]);
    var r := HttpParser.Parse(packet);
    HttpLeavesFtp(t, env, r);
    HttpAdds(t, env, r);
    HttpMessageFits(t, env, r);
    SameHttpMessage(s, t, env, r);
    LinePosts(s, env, packet);
    if HttpMessage(t, env, r).Some? {
      PostedHistory(s.ctl, HttpMessage(t, env, r).value);
    }
  }

  lemma PostedHistory(p: C.Pump, m: Message)
    ensures C.Post(p, m).history == p.history + [m]
  {
  }

  lemma HttpAdds(s: Session, env: Env, r: HttpParser.Request)
    requires H.RequestDefined(env.authenticate, r)
    ensures HttpRequest(s, env, r).0.requests == s.requests + [r]
  {
    hide H.RequestDefined, H.Handle, Http, C.Post, HttpResponse.OfStatus;
  }

  /** Whatever line mentions HTTP, with what follows it up to the empty line, is the session's next request. */
  lemma HttpLineTaken(s: Session, env: Env, line: string, rest: string)
    requires '\r' !in line && Utils.Contains(line, "HTTP")
    requires Inv(s) && Enabled(s, env, Line(line + "\r\n" + rest))
    ensures Defined(s) && HttpParser.Defined(line + "\r\n" + rest)
    ensures TakenAsRequest(s, Step(s, env, Line(line + "\r\n" + rest)).0, HttpParser.Parse(line + "\r\n" + rest))
  {
    hide Inv, Defined, Step, PacketDefined, IsHttpPacket, LineReceived, TakenAsRequest, HttpParser.Defined,
      HttpParser.Parse, Utils.Contains;
    R.InvParts(s);
    DetectedIff(line, rest);
    LineIsStep(s, env, line + "\r\n" + rest);
    HttpTaken(s, env, line + "\r\n" + rest);
  }

  /** A printed HTTP/1.1 request is taken as exactly that request. */
  lemma PrintedRequestTaken(s: Session, env: Env, m: HttpParser.HttpMethod, uri: string,
                            headers: seq<HttpRequests.Header>, size: nat, r: HttpParser.Request)
    requires HttpAdmission.Reads(m, uri, "HTTP/1.1", headers, size, r)
    requires Inv(s)
    requires Enabled(s, env, Line(HttpRequests.Print(HttpRequests.RequestLine(m, uri, "HTTP/1.1"), headers)))
    ensures Defined(s)
    ensures TakenAsRequest(
              s, Step(s, env, Line(HttpRequests.Print(HttpRequests.RequestLine(m, uri, "HTTP/1.1"), headers))).0, r)
    ensures r.valid && r.method_ == m && r.uri == uri && r.resourceSize == size
    ensures HttpRequests.HoldsLastValues(r.headerFields, headers)
  {
    hide Inv, Enabled, Step, Defined, TakenAsRequest, HttpParser.Defined, HttpParser.Parse, HttpRequests.Printable,
      HttpRequests.DeclaredSize, HttpRequests.HoldsLastValues, Utils.Contains, HttpRequests.RequestLine;
    var line := HttpRequests.RequestLine(m, uri, "HTTP/1.1");
    HttpAdmission.ReadsRequest(m, uri, "HTTP/1.1", headers, size, r);
    RequestLineDetected(m, uri);
    LineFreeOfCR(m, uri);
    var rest := HttpSyntax.Terminated(HttpRequests.LinesOf(headers)) + HttpSyntax.CRLF;
    assert HttpRequests.Print(line, headers) == line + "\r\n" + rest;
    HttpLineTaken(s, env, line, rest);
  }

  lemma LineFreeOfCR(m: HttpParser.HttpMethod, uri: string)
    requires m != HttpParser.Unrecognized && '\r' !in uri
    ensures '\r' !in HttpRequests.RequestLine(m, uri, "HTTP/1.1")
  {
  }

  // ---------------------------------------------------------------- what requests do

  /** The next message of a session, and the only new one. */
  ghost predicate SendsOnly(s: Session, t: Session, m: Message) {
    t.ctl.history == s.ctl.history + [m]
  }

  /** The only new message is a final response to the request just taken, in its serialised form. */
  ghost predicate Responds(s: Session, t: Session, refused: bool, response: HttpResponse.Response) {
    SendsOnly(s, t, Message(HttpResponse.Serialized(response),
                            if refused then Refusal(|s.requests|, response) else Answer(|s.requests|, response)))
  }

  /** What a request that was just taken has done: to reads, messages and the store. */
  ghost predicate Carried(s: Session, t: Session, env: Env, r: HttpParser.Request, op: StoreOp)
    requires H.RequestDefined(env.authenticate, r)
  {
    if !H.Admits(env.ftp.users, env.authenticate, r) then
      && Responds(s, t, true,
                  if r.valid then HttpResponse.Challenge() else HttpResponse.OfStatus(HttpResponse.BadRequest))
      && t.inputs == [] && op == NoOp
    else
      match r.method_
      case Get =>
        && (r.uri == "/" ==>
              Responds(s, t, false, HttpResponse.OfResource(HttpResponse.Ok, Listing.Text(env.ftp.listing))))
        && (r.uri != "/" && r.uri in env.ftp.files ==>
              Responds(s, t, false, HttpResponse.OfResource(HttpResponse.Ok, env.ftp.files[r.uri])))
        && (r.uri != "/" && r.uri !in env.ftp.files ==>
              Responds(s, t, false, HttpResponse.OfStatus(HttpResponse.NotFound)))
        && t.inputs == [LineRead] && op == NoOp
      case Put =>
        && (if H.Expects(r) then
              SendsOnly(s, t, Message(HttpResponse.Serialized(HttpResponse.OfStatus(HttpResponse.Continue)),
                                      Interim(|s.requests|, HttpResponse.OfStatus(HttpResponse.Continue))))
            else t.ctl.history == s.ctl.history)
        && t.inputs == [BodyRead(r.uri, r.resourceSize)] && op == NoOp
      case Delete =>
        && t.inputs == [LineRead]
        && if r.uri in env.ftp.files then
             && Responds(s, t, false, HttpResponse.OfStatus(HttpResponse.Ok))
             && op == RemoveFile(r.uri, DeleteRequest(|s.requests|))
           else Responds(s, t, false, HttpResponse.OfStatus(HttpResponse.NotFound)) && op == NoOp
      case Unrecognized => false
  }

  lemma RequestCarried(s: Session, env: Env, r: HttpParser.Request)
    requires H.RequestDefined(env.authenticate, r) && s.inputs == []
    ensures var (t, op) := HttpRequest(s, env, r); Carried(s, t, env, r, op)
  {
    hide H.Admits, HttpResponse.Serialized, HttpResponse.OfStatus, HttpResponse.OfResource, HttpResponse.Challenge,
      Listing.Text, H.Handle, HttpParser.AuthInfoOf, HttpParser.AuthDefined;
    var e := env.ftp;
    H.RefusedIff(e.users, e.files, e.listing, env.authenticate, r);
    if H.Admits(e.users, env.authenticate, r) {
      AdmittedHasMethod(e.users, env.authenticate, r);
      match r.method_
      case Get => GetCarried(s, env, r);
      case Put => H.PutIs(e.users, e.files, e.listing, env.authenticate, r);
      case Delete => H.DeleteIs(e.users, e.files, e.listing, env.authenticate, r);
    }
  }

  lemma AdmittedHasMethod(users: U.Users, authenticate: bool, r: HttpParser.Request)
    requires H.RequestDefined(authenticate, r) && H.Admits(users, authenticate, r)
    ensures r.valid && r.method_ != HttpParser.Unrecognized
  {
    hide HttpParser.AuthInfoOf, HttpParser.AuthDefined;
  }

  lemma GetCarried(s: Session, env: Env, r: HttpParser.Request)
    requires H.RequestDefined(env.authenticate, r) && s.inputs == []
    requires H.Admits(env.ftp.users, env.authenticate, r) && r.method_ == HttpParser.Get
    ensures var (t, op) := HttpRequest(s, env, r); Carried(s, t, env, r, op)
  {
    hide HttpResponse.Serialized, HttpResponse.OfStatus, HttpResponse.OfResource, HttpResponse.Challenge, Listing.Text,
      HttpParser.AuthInfoOf, HttpParser.AuthDefined;
  }

  /** The packet read next is the request r, and the session carries it out as it must. */
  lemma HttpLineCarried(s: Session, env: Env, line: string, rest: string)
    requires '\r' !in line && Utils.Contains(line, "HTTP")
    requires Inv(s) && Enabled(s, env, Line(line + "\r\n" + rest))
    ensures Defined(s) && HttpParser.Defined(line + "\r\n" + rest)
    ensures H.RequestDefined(env.authenticate, HttpParser.Parse(line + "\r\n" + rest))
    ensures var (t, op) := Step(s, env, Line(line + "\r\n" + rest));
            Carried(s, t, env, HttpParser.Parse(line + "\r\n" + rest), op)
  {
    hide Inv, Defined, Step, IsHttpPacket, HttpRequest, Carried, HttpParser.Defined, HttpParser.Parse, Utils.Contains,
      H.RequestDefined, C.Enabled, D.Enabled, FtpLine;
    R.InvParts(s);
    R.OneRead(s);
    var packet := line + "\r\n" + rest;
    DetectedIff(line, rest);
    LineIsStep(s, env, packet);
    var r := HttpParser.Parse(packet);
    var t := s.(inputs := s.inputs[1..]);
    RequestCarried(t, env, r);
    SameCarried(s, t, HttpRequest(t, env, r).0, env, r, HttpRequest(t, env, r).1);
  }

  lemma SameCarried(s: Session, s': Session, t: Session, env: Env, r: HttpParser.Request, op: StoreOp)
    requires H.RequestDefined(env.authenticate, r) && Carried(s', t, env, r, op) && s' == s.(inputs := s'.inputs)
    ensures Carried(s, t, env, r, op)
  {
    hide H.Admits, H.RequestDefined, HttpResponse.Serialized, HttpResponse.OfStatus, HttpResponse.OfResource,
      HttpResponse.Challenge, Listing.Text;
  }

  // ---------------------------------------------------------------- command lines

  /** The one reply to a command line: it begins with the code the command deserves, and is no HTTP. */
  ghost predicate Replies(s: Session, t: Session, code: nat, m: Message) {
    SendsOnly(s, t, m) && HasCode(m.text, code) && !IsHttp(m.tag)
  }

  /** A command was taken: carried out by the handlers, answered with their code, and logged with it. */
  ghost predicate TakenAsCommand(s: Session, t: Session, env: Env, r: FtpParser.Request, op: StoreOp, m: Message)
    requires F.RequestDefined(s.ftp, r)
  {
    var o := F.Handle(s.ftp, env.ftp, r);
    && t.ftp == o.state && t.requests == s.requests && t.inputs == [LineRead]
    && t.log == s.log + [F.Logged(r.command, r.tokens, o.code)]
    && Replies(s, t, o.code, m)
    && m.text == Decimal.ToString(o.code) + " " + o.text + "\r\n"
    && (op == if o.effect.Delete? then RemoveFile(o.effect.path, DeleCommand(|s.log|)) else NoOp)
  }

  lemma CommandTaken(s: Session, env: Env, r: FtpParser.Request)
    requires r.valid && F.RequestDefined(s.ftp, r) && s.inputs == []
    ensures var (t, op) := FtpLine(s, env, r); TakenAsCommand(s, t, env, r, op, FtpMessage(s, env, r))
  {
    hide F.Handle, F.RequestDefined, Decimal.ToString, HasCode;
    var o := F.Handle(s.ftp, env.ftp, r);
    var tag := FtpMessage(s, env, r).tag;
    ReplyHasItsCode(o.code, o.text, tag);
    assert HasCode(Reply(o.code, o.text, tag).text, o.code);
  }

  /** A line that is no known command gets 500, and changes nothing else. */
  ghost predicate TakenAsNothing(s: Session, t: Session, m: Message) {
    && Replies(s, t, 500, m) && t.inputs == [LineRead]
    && t == s.(ctl := t.ctl, inputs := t.inputs)
  }

  lemma NothingTaken(s: Session, env: Env, r: FtpParser.Request)
    requires !r.valid && s.inputs == []
    ensures TakenAsNothing(s, FtpLine(s, env, r).0, FtpMessage(s, env, r)) && FtpLine(s, env, r).1 == NoOp
  {
    hide Decimal.ToString, HasCode;
    ReplyHasItsCode(500, "", Plain);
    assert HasCode(Reply(500, "", Plain).text, 500);
  }

  /**
   A line that does not mention HTTP is a command line: it becomes no request, and gets exactly one
   reply, with the code that the handlers give to its command, or 500.
   */
  lemma FtpLineTaken(s: Session, env: Env, line: string) returns (m: Message)
    requires '\r' !in line && !Utils.Contains(line, "HTTP")
    requires Inv(s) && Enabled(s, env, Line(line + "\r\n"))
    ensures Defined(s) && FtpParser.Defined(line + "\r\n")
    ensures var r := FtpParser.Parse(line + "\r\n");
            var (t, op) := Step(s, env, Line(line + "\r\n"));
            && t.requests == s.requests
            && if r.valid then F.RequestDefined(s.ftp, r) && TakenAsCommand(s, t, env, r, op, m)
               else TakenAsNothing(s, t, m) && op == NoOp
  {
    hide Inv, Defined, Step, IsHttpPacket, FtpLine, TakenAsCommand, TakenAsNothing, FtpParser.Defined, FtpParser.Parse,
      Utils.Contains, F.RequestDefined, C.Enabled, D.Enabled, HttpRequest, FtpMessage;
    R.InvParts(s);
    R.OneRead(s);
    var packet := line + "\r\n";
    assert packet == line + "\r\n" + "";
    DetectedIff(line, "");
    LineIsStep(s, env, packet);
    var r := FtpParser.Parse(packet);
    var s' := s.(inputs := s.inputs[1..]);
    var t, op := FtpLine(s', env, r).0, FtpLine(s', env, r).1;
    m := FtpMessage(s', env, r);
    FtpMessageFits(s', env, r);
    if r.valid {
      CommandTaken(s', env, r);
      SameCommand(s, s', t, env, r, op, m);
    } else {
      NothingTaken(s', env, r);
      SameNothing(s, s', t, m);
    }
  }

  lemma SameCommand(s: Session, s': Session, t: Session, env: Env, r: FtpParser.Request, op: StoreOp, m: Message)
    requires F.RequestDefined(s'.ftp, r) && TakenAsCommand(s', t, env, r, op, m) && s' == s.(inputs := s'.inputs)
    ensures TakenAsCommand(s, t, env, r, op, m)
  {
    hide F.Handle, F.RequestDefined, HasCode, Decimal.ToString;
  }

  lemma SameNothing(s: Session, s': Session, t: Session, m: Message)
    requires TakenAsNothing(s', t, m) && s' == s.(inputs := s'.inputs)
    ensures TakenAsNothing(s, t, m)
  {
    hide HasCode;
  }

  /**
   The reply to PASV, as the client reads it: for someone logged in, with an acceptor at e, it is a
   227 that holds exactly e, and the acceptor is open.
   */
  lemma PasvLineTaken(s: Session, env: Env, line: string, e: F.Endpoint) returns (m: Message)
    requires '\r' !in line && !Utils.Contains(line, "HTTP")
    requires Inv(s) && Enabled(s, env, Line(line + "\r\n"))
    requires FtpParser.Defined(line + "\r\n")
    requires var r := FtpParser.Parse(line + "\r\n"); r.valid && r.command == FtpParser.Pasv
    requires s.ftp.loggedIn.Some? && env.ftp.endpoint == Some(e) && e.port < 0x1_0000
    ensures Defined(s)
    ensures var t := Step(s, env, Line(line + "\r\n")).0;
            && Replies(s, t, 227, m) && F.EndpointIn(m.text) == Some(e) && t.ftp.acceptorOpen
  {
    hide Inv, Defined, Enabled, Step, FtpParser.Defined, FtpParser.Parse, Utils.Contains, F.RequestDefined, F.Handle,
      F.PassiveText, F.EndpointIn, HasCode, Decimal.ToString;
    m := FtpLineTaken(s, env, line);
    var r := FtpParser.Parse(line + "\r\n");
    F.PasvIff(s.ftp, env.ftp, r);
    PasvText(s.ftp, env.ftp, r, e);
    var before := Decimal.ToString(227) + " " + "Entering passive mode ";
    CodeFree();
    assert m.text == before + F.PassiveText(e) + "\r\n";
    F.EndpointReadBack(before, e, "\r\n");
  }

  lemma PasvText(s: F.State, env: F.Env, r: FtpParser.Request, e: F.Endpoint)
    requires F.RequestDefined(s, r) && r.command == FtpParser.Pasv && s.loggedIn.Some? && env.endpoint == Some(e)
    ensures F.Handle(s, env, r).text == "Entering passive mode " + F.PassiveText(e)
  {
    hide F.PassiveText;
  }

  lemma CodeFree()
    ensures '(' !in Decimal.ToString(227) && ')' !in Decimal.ToString(227)
  {
    F.DigitsFreeOf(Decimal.ToString(227), '(');
    F.DigitsFreeOf(Decimal.ToString(227), ')');
  }

  // ---------------------------------------------------------------- other steps seen from outside

  /** A failed read closes the acceptor, has the data socket closed, and leaves the session reading. */
  lemma FailedReadIs(s: Session, env: Env)
    requires Inv(s) && Enabled(s, env, LineFailing)
    ensures Defined(s)
    ensures var (t, op) := Step(s, env, LineFailing);
            && !t.ftp.acceptorOpen && t.closes == s.closes + 1 && t.inputs == [LineRead] && op == NoOp
            && t == s.(ftp := s.ftp.(acceptorOpen := false), closes := t.closes, inputs := t.inputs)
  {
    hide Inv, C.Inv, D.Inv, PacketDefined, Stages, Answers, Commands, Origins, SessionHistories.Replies, Reported,
      UploadsSound, Refused;
    R.InvParts(s);
    R.OneRead(s);
    assert [LineRead][1..] == [];
  }

  /** An FTP client is greeted, any other is not; and the first read is on its way. */
  lemma GreetingIs()
    ensures Fresh(false).ctl.history == [] && Fresh(false).startPosted && Fresh(true).startPosted
    ensures Fresh(true).ctl.history == [Message("220" + " " + "Welcome to ObjectStorage server" + "\r\n", Plain)]
  {
    assert Decimal.ToString(2) == "2";
    assert Decimal.ToString(22) == "22";
    assert Decimal.ToString(220) == "220";
  }

  // ---------------------------------------------------------------- invitations over whole runs

  ghost predicate HasInterim(history: seq<Message>, n: nat) {
    exists k :: 0 <= k < |history| && history[k].tag.Interim? && history[k].tag.request == n
  }

  ghost predicate IsRefused(history: seq<Message>, n: nat) {
    exists k :: 0 <= k < |history| && history[k].tag.Refusal? && history[k].tag.request == n
  }

  /** A 100 was posted for exactly the PUTs that expect one and were not refused. */
  ghost predicate Invited(s: Session) {
    forall n: nat :: HasInterim(s.ctl.history, n) <==>
      && n < |s.requests| && s.requests[n].valid && s.requests[n].method_ == HttpParser.Put && H.Expects(s.requests[n])
      && !IsRefused(s.ctl.history, n)
  }

  lemma InvitedAppended(history: seq<Message>, m: Option<Message>, n: nat)
    ensures HasInterim(Appended(history, m), n) <==>
              HasInterim(history, n) || (m.Some? && m.value.tag.Interim? && m.value.tag.request == n)
    ensures IsRefused(Appended(history, m), n) <==>
              IsRefused(history, n) || (m.Some? && m.value.tag.Refusal? && m.value.tag.request == n)
  {
    var longer := Appended(history, m);
    assert forall k :: 0 <= k < |history| ==> longer[k] == history[k];
    if m.Some? {
      assert longer[|history|] == m.value;
    }
  }

  /** What a step means for invitations: nothing, or the request it takes is invited, refused, or neither. */
  ghost predicate InvitationStep(s: Session, t: Session, m: Option<Message>) {
    && (m.Some? && (m.value.tag.Interim? || m.value.tag.Refusal?) ==>
          m.value.tag.request == |s.requests| && |t.requests| == |s.requests| + 1)
    && (t.requests == s.requests
        || (&& |t.requests| == |s.requests| + 1 && s.requests <= t.requests
            && var r := t.requests[|s.requests|];
               (m.Some? && m.value.tag.Interim?) <==>
                 && r.valid && r.method_ == HttpParser.Put && H.Expects(r)
                 && !(m.Some? && m.value.tag.Refusal?)))
  }

  lemma HttpInvites(s: Session, env: Env, r: HttpParser.Request)
    requires H.RequestDefined(env.authenticate, r)
    ensures InvitationStep(s, HttpRequest(s, env, r).0, HttpMessage(s, env, r))
  {
    hide HttpParser.AuthInfoOf, HttpParser.AuthDefined, HttpResponse.Serialized, HttpResponse.OfStatus, C.Post,
      H.HandleGet, U.Verified, HttpResponse.Challenge;
    HttpAdds(s, env, r);
  }

  lemma LineInvites(s: Session, env: Env, packet: string)
    requires PacketDefined(s, env, packet) && s.inputs != []
    ensures InvitationStep(s, LineReceived(s, env, packet).0, LineMessage(s, env, packet))
  {
    hide F.RequestDefined, H.RequestDefined, HttpParser.Defined, HttpParser.Parse, FtpParser.Parse, FtpLine,
      HttpRequest, IsHttpPacket, FtpMessage, HttpMessage;
    var t := s.(inputs := s.inputs[1..]);
    if IsHttpPacket(packet) {
      HttpInvites(t, env, HttpParser.Parse(packet));
      SameHttpMessage(s, t, env, HttpParser.Parse(packet));
    } else {
      FtpMessageFits(t, env, FtpParser.Parse(packet));
      SameFtpMessage(s, t, env, FtpParser.Parse(packet));
    }
  }

  lemma StepInvites(s: Session, env: Env, e: Event)
    requires Inv(s) && Enabled(s, env, e)
    ensures Defined(s) && InvitationStep(s, Step(s, env, e).0, Posted(s, env, e))
  {
    hide Inv, Step, Stages, Answers, Commands, Origins, SessionHistories.Replies, Reported, UploadsSound, C.Inv, D.Inv,
      LineMessage, LineReceived, InvitationStep, PacketDefined, BodyMessage, Refused, C.Enabled, D.Enabled;
    R.InvParts(s);
    if e.Line? {
      LineInvites(s, env, e.packet);
      LineIsStep(s, env, e.packet);
    } else {
      StepRequests(s, env, e);
      OtherInvites(s, env, e);
    }
  }

  lemma OtherInvites(s: Session, env: Env, e: Event)
    requires Defined(s) && Enabled(s, env, e) && Reading(s) && !e.Line?
    ensures InvitationStep(s, Step(s, env, e).0, Posted(s, env, e))
  {
    hide Step, C.Inv, D.Inv, PacketDefined, Refused, C.Enabled, D.Enabled, HttpResponse.Serialized, H.BodyResponse,
      Reply;
    StepRequests(s, env, e);
    if !e.Body? && !e.BodyFailing? {
      OtherMessage(s, env, e);
    }
  }

  /** Interim responses and refusals belong to requests that were made. */
  lemma OnlyMadeRequests(s: Session, n: nat)
    requires Answers(s) && n >= |s.requests|
    ensures !HasInterim(s.ctl.history, n) && !IsRefused(s.ctl.history, n)
  {
    hide FinalCount, HttpResponse.Serialized, HttpResponse.SelfDelimiting;
    forall k | 0 <= k < |s.ctl.history| && IsHttp(s.ctl.history[k].tag) ensures s.ctl.history[k].tag.request < n {
      assert Fits(s.ctl.history[k], FinalCount(s.ctl.history[..k]), |s.requests|);
    }
  }

  lemma StepKeepsInvited(s: Session, env: Env, e: Event)
    requires Inv(s) && Enabled(s, env, e) && Invited(s)
    ensures Defined(s) && Invited(Step(s, env, e).0)
  {
    hide Inv, Defined, Enabled, Step, Posted, HasInterim, IsRefused, H.Expects, Stages, Reading, Answers, Commands,
      Origins, SessionHistories.Replies, Reported, UploadsSound;
    R.InvParts(s);
    StepInvites(s, env, e);
    StepHistory(s, env, e);
    var t, m := Step(s, env, e).0, Posted(s, env, e);
    forall n: nat
      ensures HasInterim(t.ctl.history, n) <==>
                && n < |t.requests| && t.requests[n].valid && t.requests[n].method_ == HttpParser.Put
                && H.Expects(t.requests[n]) && !IsRefused(t.ctl.history, n)
    {
      InvitedAppended(s.ctl.history, m, n);
      if n >= |s.requests| {
        OnlyMadeRequests(s, n);
      }
    }
  }

  lemma FreshInvited(greet: bool)
    ensures Invited(Fresh(greet))
  {
    hide Reply, H.Expects;
  }

  lemma {:induction false} InvitedThroughout(s: Session, moves: seq<R.Move>)
    requires Inv(s) && R.ValidRun(s, moves) && Invited(s)
    ensures Invited(R.Exec(s, moves))
    decreases |moves|
  {
    hide Inv, Enabled, Step, Invited, Defined, Stages, Reading, Answers, Commands, Origins, SessionHistories.Replies,
      Reported, UploadsSound;
    if moves != [] {
      StepKeepsInvited(s, moves[0].env, moves[0].event);
      InvitedThroughout(R.After(s, moves[0]), moves[1..]);
    }
  }

  /**
   In every run of a session, whatever it meets: a 100 is posted for exactly those PUTs that expect
   one and are not refused.
   */
  lemma InvitedIff(greet: bool, moves: seq<R.Move>)
    requires Inv(Fresh(greet)) && R.ValidRun(Fresh(greet), moves)
    ensures Invited(R.Exec(Fresh(greet), moves))
  {
    hide Inv, Invited, R.ValidRun, R.Exec, Fresh;
    FreshInvited(greet);
    InvitedThroughout(Fresh(greet), moves);
  }
}
