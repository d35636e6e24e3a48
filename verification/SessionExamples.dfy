/**
 Runs of a session from its start, through real command lines, that show what can go wrong: an
 upload's saving closes another transfer's socket, and two listings stall the data pump.
 */
module SessionExamples {
  import opened Wrappers
  import opened Messages
  import opened SessionModel
  import opened SessionInvariants
  import opened SessionHistories
  import opened SessionRuns
  import C = ControlPump
  import D = DataPump
  import Decimal
  import F = FtpCommands
  import FtpParser
  import H = HttpHandlers
  import HttpAdmission
  import HttpParser
  import HttpRequests
  import HttpResponse
  import HttpSyntax
  import Listing
  import SessionLines
  import U = UserDatabase
  import Up = Upload
  import Utils

  /** An empty store and user table, and a data acceptor that can be set up. */
  const Met := Env(F.Env(map[], map[], [], Some(F.Endpoint([127, 0, 0, 1], 2048)), false), false)

  // ---------------------------------------------------------------- putting runs together

  ghost predicate LeadsTo(moves: seq<Move>, s: Session) {
    Inv(Fresh(false)) && ValidRun(Fresh(false), moves) && Exec(Fresh(false), moves) == s
  }

  lemma Begins()
    ensures LeadsTo([], Fresh(false))
  {
    hide Inv, Fresh;
    FreshInv(false);
  }

  lemma Meet(moves: seq<Move>, s: Session, env: Env, e: Event) returns (t: Session)
    requires LeadsTo(moves, s) && Enabled(s, env, e)
    ensures Inv(s) && Defined(s) && Inv(t) && t == Step(s, env, e).0
    ensures LeadsTo(moves + [Move(env, e)], t)
  {
    hide Inv, Enabled, Step, Defined, Fresh, Stages, Reading, Answers, Commands, Origins, Replies, Reported,
      UploadsSound;
    RunExtended(Fresh(false), moves, Move(env, e));
    InvParts(s);
    t := After(s, Move(env, e));
  }

  lemma Take(moves: seq<Move>, s: Session, e: Event) returns (t: Session)
    requires LeadsTo(moves, s) && Enabled(s, Met, e)
    ensures Inv(s) && Defined(s) && Inv(t) && t == Step(s, Met, e).0
    ensures LeadsTo(moves + [Move(Met, e)], t)
  {
    hide Inv, Enabled, Step, Defined, LeadsTo;
    t := Meet(moves, s, Met, e);
  }

  // ---------------------------------------------------------------- command lines

  function LineOf(words: seq<string>): string {
    Utils.Join(words, " ") + HttpSyntax.CRLF
  }

  /** The words of a command line: without spaces, and without the first letter of HTTP. */
  ghost predicate Plainly(words: seq<string>, c: FtpParser.FtpCommand) {
    && words != [] && words != [""] && c != FtpParser.Unrecognized && words[0] == FtpParser.CommandName(c)
    && forall k :: 0 <= k < |words| ==> ' ' !in words[k] && 'H' !in words[k]
  }

  lemma {:induction false} JoinAvoids(words: seq<string>)
    requires forall k :: 0 <= k < |words| ==> 'H' !in words[k]
    ensures 'H' !in Utils.Join(words, " ")
  {
    if |words| > 1 {
      JoinAvoids(words[1..]);
    }
  }

  /** The line parses to its words, and is no HTTP request. */
  lemma LineParses(words: seq<string>, c: FtpParser.FtpCommand)
    requires Plainly(words, c)
    ensures FtpParser.Defined(LineOf(words)) && !IsHttpPacket(LineOf(words))
    ensures FtpParser.Parse(LineOf(words)) == FtpParser.Request(true, c, words)
  {
    hide Utils.Find, FtpParser.Parse, FtpParser.Defined, Utils.Join, FtpParser.CommandName, Utils.Contains;
    FtpParser.ParsePrinted(words, c);
    JoinAvoids(words);
    var packet := LineOf(words);
    var end := Utils.Find(packet, "\r\n", 0);
    var line := if end == Utils.NPOS then packet else packet[..end];
    assert 'H' !in packet;
    HttpSyntax.FreeOfChar(line, "HTTP");
    NotFound(line, "HTTP");
  }

  lemma NotFound(text: string, pattern: string)
    requires !Utils.Contains(text, pattern)
    ensures Utils.Find(text, pattern, 0) == Utils.NPOS
  {
  }

  /** What a command line does to the parts of the session that matter here. */
  ghost predicate Said(s: Session, t: Session, o: F.Outcome) {
    && t.ftp == o.state && t.inputs == [LineRead]
    && t.uploads == s.uploads && t.pump == s.pump && t.current == s.current
    && match o.effect
       case StartDownload(bytes) =>
         t.accepts == s.accepts[|s.origins| := ForDownload(bytes)] && |t.origins| == |s.origins| + 1
       case StartUpload(path) =>
         t.accepts == s.accepts[|s.origins| := ForUpload(path)] && |t.origins| == |s.origins| + 1
       case _ => t.accepts == s.accepts && t.origins == s.origins
  }

  lemma FtpSaid(s: Session, env: Env, r: FtpParser.Request)
    requires r.valid && F.RequestDefined(s.ftp, r) && s.inputs == []
    ensures Said(s, FtpLine(s, env, r).0, F.Handle(s.ftp, env.ftp, r))
  {
    hide F.Handle, F.RequestDefined, C.Post, Reply;
  }

  lemma LineSaid(s: Session, words: seq<string>, c: FtpParser.FtpCommand)
    requires Plainly(words, c) && s.inputs == [LineRead]
    requires F.RequestDefined(s.ftp, FtpParser.Request(true, c, words))
    ensures PacketDefined(s, Met, LineOf(words)) && Enabled(s, Met, Line(LineOf(words)))
    ensures Said(s, LineReceived(s, Met, LineOf(words)).0,
                 F.Handle(s.ftp, Met.ftp, FtpParser.Request(true, c, words)))
  {
    hide F.Handle, F.RequestDefined, FtpLine, FtpParser.Parse, FtpParser.Defined, IsHttpPacket, LineOf, Plainly;
    LineParses(words, c);
    FtpSaid(s.(inputs := []), Met, FtpParser.Request(true, c, words));
    assert [LineRead][1..] == [];
  }

  lemma Say(moves: seq<Move>, s: Session, words: seq<string>, c: FtpParser.FtpCommand)
    returns (more: seq<Move>, t: Session)
    requires LeadsTo(moves, s) && Plainly(words, c) && s.inputs == [LineRead]
    requires F.RequestDefined(s.ftp, FtpParser.Request(true, c, words))
    ensures LeadsTo(more, t) && Said(s, t, F.Handle(s.ftp, Met.ftp, FtpParser.Request(true, c, words)))
  {
    hide Inv, Defined, Enabled, Step, F.Handle, F.RequestDefined, LineOf, Plainly, LineReceived, Said, PacketDefined,
      LeadsTo;
    LineSaid(s, words, c);
    t := Take(moves, s, Line(LineOf(words)));
    more := moves + [Move(Met, Line(LineOf(words)))];
    LineIsStep(s, Met, LineOf(words));
  }

  // ---------------------------------------------------------------- logging in

  /** Someone anonymous is logged in, the data acceptor is open, and nothing has been transferred. */
  ghost predicate Ready(s: Session) {
    Untouched(s) && s.ftp.loggedIn.Some? && s.ftp.acceptorOpen
  }

  lemma Started() returns (moves: seq<Move>, s: Session)
    ensures LeadsTo(moves, s) && s == ArmRead(Fresh(false).(startPosted := false))
  {
    hide Inv, C.Inv, D.Inv, PacketDefined, LeadsTo;
    Begins();
    s := Take([], Fresh(false), Starting);
    moves := [] + [Move(Met, Starting)];
  }

  /** Nothing has been transferred. */
  ghost predicate Untouched(s: Session) {
    && s.inputs == [LineRead] && s.ftp.workingDir == "/"
    && s.accepts == map[] && s.origins == [] && s.uploads == map[] && s.pump == D.Empty && s.current == None
  }

  lemma Greets() returns (moves: seq<Move>, s: Session)
    ensures LeadsTo(moves, s) && Untouched(s)
    ensures s.ftp.lastCommand == FtpParser.User && s.ftp.lastUsername == U.ANONYMOUS
  {
    hide LeadsTo;
    moves, s := Started();
    assert FtpParser.CommandName(FtpParser.User) == "USER";
    moves, s := Say(moves, s, ["USER", "anonymous"], FtpParser.User);
  }

  lemma Passes() returns (moves: seq<Move>, s: Session)
    ensures LeadsTo(moves, s) && Untouched(s) && s.ftp.loggedIn.Some?
  {
    hide LeadsTo;
    moves, s := Greets();
    assert FtpParser.CommandName(FtpParser.Pass) == "PASS";
    moves, s := Say(moves, s, ["PASS", "x"], FtpParser.Pass);
  }

  lemma LogsIn() returns (moves: seq<Move>, s: Session)
    ensures LeadsTo(moves, s) && Ready(s)
  {
    hide LeadsTo, F.PassiveText;
    moves, s := Passes();
    assert FtpParser.CommandName(FtpParser.Pasv) == "PASV";
    moves, s := Say(moves, s, ["PASV"], FtpParser.Pasv);
  }

  // ---------------------------------------------------------------- saving closes another transfer's socket

  lemma AcceptNext(moves: seq<Move>, s: Session, id: nat) returns (more: seq<Move>, t: Session)
    requires LeadsTo(moves, s) && id in s.accepts
    ensures LeadsTo(more, t) && t == Accepted(s, id) && more == moves + [Move(Met, Accepting(id))]
  {
    hide Inv, Defined, Step, Accepted, LeadsTo;
    t := Take(moves, s, Accepting(id));
    more := moves + [Move(Met, Accepting(id))];
    AcceptIsStep(s, Met, id);
  }

  lemma AnnouncesUpload(moves: seq<Move>, s: Session, name: string) returns (more: seq<Move>, t: Session)
    requires LeadsTo(moves, s) && s.inputs == [LineRead] && s.ftp.loggedIn.Some? && s.ftp.acceptorOpen
    requires ' ' !in name && 'H' !in name
    ensures LeadsTo(more, t)
    ensures t.ftp.(lastCommand := s.ftp.lastCommand) == s.ftp && t.inputs == [LineRead]
    ensures t.uploads == s.uploads && t.pump == s.pump && |t.origins| == |s.origins| + 1
    ensures t.accepts == s.accepts[|s.origins| := ForUpload(s.ftp.workingDir + name)]
  {
    hide LeadsTo;
    assert FtpParser.CommandName(FtpParser.Stor) == "STOR";
    more, t := Say(moves, s, ["STOR", name], FtpParser.Stor);
  }

  lemma TwoUploads() returns (moves: seq<Move>, s: Session)
    ensures LeadsTo(moves, s) && s.pump == D.Empty && s.current == Some(1)
    ensures 0 in s.uploads && s.uploads[0] == Up.Start("/a")
  {
    hide LeadsTo;
    moves, s := LogsIn();
    assert "/" + "a" == "/a";
    moves, s := AnnouncesUpload(moves, s, "a");
    moves, s := AnnouncesUpload(moves, s, "b");
    moves, s := AcceptNext(moves, s, 0);
    moves, s := AcceptNext(moves, s, 1);
  }

  lemma UploadMoves(moves: seq<Move>, s: Session, id: nat, move: Up.Event) returns (more: seq<Move>, t: Session)
    requires LeadsTo(moves, s) && id in s.uploads && !move.Saving? && Up.Enabled(s.uploads[id], move)
    ensures LeadsTo(more, t) && t == s.(uploads := s.uploads[id := Up.Next(s.uploads[id], move)])
  {
    hide Inv, C.Inv, D.Inv, PacketDefined, Up.Enabled, Up.Next, LeadsTo;
    t := Take(moves, s, UploadStep(id, move));
    more := moves + [Move(Met, UploadStep(id, move))];
  }

  /**
   A client logs in, announces two uploads and connects both. The first ends at once, and the step
   that saves it closes the data socket of the second, and not its own.
   */
  lemma SavingClosesAnother() returns (moves: seq<Move>, s: Session)
    ensures LeadsTo(moves, s) && Defined(s) && Enabled(s, Met, Saving(0))
    ensures s.pump.closed == {} && Step(s, Met, Saving(0)).0.pump.closed == {1}
  {
    hide Inv, LeadsTo, C.Inv, D.Inv, PacketDefined;
    moves, s := TwoUploads();
    moves, s := UploadMoves(moves, s, 0, Up.Ending);
    moves, s := UploadMoves(moves, s, 0, Up.Completing);
    IsDefined(moves, s);
    SavingCloses(s, Met, 0);
  }

  lemma IsDefined(moves: seq<Move>, s: Session)
    requires LeadsTo(moves, s)
    ensures Inv(s) && Defined(s)
  {
    hide Inv, Defined, Fresh;
    InvParts(s);
  }

  // ---------------------------------------------------------------- two listings stall the pump

  lemma TwoListings() returns (moves: seq<Move>, s: Session)
    ensures LeadsTo(moves, s) && s.pump == D.TwoAccepted
  {
    hide LeadsTo;
    moves, s := LogsIn();
    assert FtpParser.CommandName(FtpParser.List) == "LIST" && Listing.Text([]) == "";
    moves, s := Say(moves, s, ["LIST"], FtpParser.List);
    assert s.accepts == map[0 := ForDownload("")];
    moves, s := Say(moves, s, ["LIST"], FtpParser.List);
    assert s.accepts == map[0 := ForDownload(""), 1 := ForDownload("")];
    moves, s := AcceptNext(moves, s, 0);
    assert s.pump.tasks == [D.Enqueue(D.FirstFile), D.Enqueue(D.FirstEnd)];
    moves, s := AcceptNext(moves, s, 1);
    assert s.pump.tasks == D.TwoAccepted.tasks && s.pump.accepted == D.TwoAccepted.accepted;
  }

  /** The session's step for a step its data pump takes by itself. */
  function LiftOf(e: D.Event): Event {
    if e.Running? then DataTasking else Data(e)
  }

  lemma OwnStepLifts(s: Session, e: D.Event)
    requires Inv(s) && D.Enabled(s.pump, e) && (e == D.Running || e == D.Completing(true))
    ensures D.Inv(s.pump) && Defined(s) && Enabled(s, Met, LiftOf(e))
    ensures Step(s, Met, LiftOf(e)).0.pump == D.Next(s.pump, e)
  {
    hide Inv, C.Inv, D.Inv, D.Next, D.Enabled, Step, Reading, Answers, Commands, Origins, Replies, Reported,
      UploadsSound, Stages, PacketDefined;
    InvParts(s);
    RunningHasTask(s.pump, e);
    StepIsPumpStep(s, Met, LiftOf(e));
  }

  lemma RunningHasTask(p: D.Pump, e: D.Event)
    requires D.Enabled(p, e)
    ensures e == D.Running ==> p.tasks != []
  {
  }

  /** What the data pump can do by itself from here, the session can do. */
  lemma {:induction false} OwnRunLifts(moves: seq<Move>, s: Session, events: seq<D.Event>)
    returns (more: seq<Move>, t: Session)
    requires LeadsTo(moves, s) && D.Inv(s.pump) && D.ValidRun(s.pump, events) && D.OwnEvents(events)
    ensures LeadsTo(more, t) && t.pump == D.Exec(s.pump, events)
    ensures moves <= more && forall k :: |moves| <= k < |more| ==> more[k].event != Data(D.Completing(false))
    decreases |events|
  {
    hide Inv, Defined, Enabled, Step, LeadsTo, D.Inv, D.Enabled, D.Next;
    if events == [] {
      more, t := moves, s;
    } else {
      IsDefined(moves, s);
      OwnStepLifts(s, events[0]);
      t := Take(moves, s, LiftOf(events[0]));
      D.NextKeeps(s.pump, events[0]);
      more, t := OwnRunLifts(moves + [Move(Met, LiftOf(events[0]))], t, events[1..]);
    }
  }

  lemma TwoAcceptedSound(moves: seq<Move>, s: Session)
    requires LeadsTo(moves, s)
    ensures D.Inv(s.pump)
  {
    hide Inv, D.Inv, C.Inv;
    IsDefined(moves, s);
  }

  /**
   A client logs in and asks for two listings. No write fails, and still the data pump ends with
   the second one in its buffer and nobody to send it.
   */
  lemma ListingsStall() returns (moves: seq<Move>, s: Session)
    ensures LeadsTo(moves, s) && D.Stalled(s.pump)
    ensures s.pump.completed == [0] && D.Ids(s.pump.accepted) == [0, 1]
  {
    hide LeadsTo, D.LeadsTo, D.Inv, D.Stalled, D.TwoAccepted;
    moves, s := TwoListings();
    TwoAcceptedSound(moves, s);
    D.NothingLeads(D.TwoAccepted);
    var own, p := D.OverlapRuns(D.TwoAccepted, []);
    assert [] + own == own;
    RunOf(own, p);
    moves, s := OwnRunLifts(moves, s, own);
  }

  lemma RunOf(own: seq<D.Event>, p: D.Pump)
    requires D.LeadsTo(D.TwoAccepted, own, p)
    ensures D.Inv(D.TwoAccepted) && D.ValidRun(D.TwoAccepted, own) && D.Exec(D.TwoAccepted, own) == p
  {
    hide D.Inv, D.ValidRun, D.Exec;
  }

  // ---------------------------------------------------------------- an HTTP connection

  /** The store once "x" has been put under "/a". */
  const Stored := Met.(ftp := Met.ftp.(files := map["/a" := "x"]))

  function Packet(m: HttpParser.HttpMethod, headers: seq<HttpRequests.Header>): string
    requires m != HttpParser.Unrecognized
  {
    HttpRequests.Print(HttpRequests.RequestLine(m, "/a", "HTTP/1.1"), headers)
  }

  const Sized := [HttpRequests.Header("Content-Length", 1, "1")]
  const Hosted := [HttpRequests.Header("Host", 1, "localhost:8080")]

  lemma SizedReads() returns (r: HttpParser.Request)
    ensures HttpAdmission.Reads(HttpParser.Put, "/a", "HTTP/1.1", Sized, 1, r) && !H.Expects(r)
  {
    hide HttpParser.Defined, HttpParser.Parse, HttpRequests.Print;
    assert Decimal.ToString(1) == "1" && HttpRequests.Kept("1") == "1";
    assert Utils.Lower("Content-Length") == Utils.Lower("content-length");
    assert Sized[..0] == [];
    HttpRequests.ParsePrinted(HttpParser.Put, "/a", "HTTP/1.1", Sized, 1);
    r := HttpParser.Parse(Packet(HttpParser.Put, Sized));
    HttpAdmission.ExpectsIff(HttpParser.Put, "/a", "HTTP/1.1", Sized, 1, r);
    assert Utils.Lower("Content-Length") != Utils.Lower("Expect") by {
      assert |Utils.Lower("Content-Length")| == 14 && |Utils.Lower("Expect")| == 6;
    }
  }

  lemma HostedReads(m: HttpParser.HttpMethod) returns (r: HttpParser.Request)
    requires m != HttpParser.Unrecognized
    ensures HttpAdmission.Reads(m, "/a", "HTTP/1.1", Hosted, 0, r)
  {
    hide HttpParser.Defined, HttpParser.Parse, HttpRequests.Print;
    assert Utils.Lower("Host") != Utils.Lower("content-length") by {
      assert |Utils.Lower("Host")| == 4 && |Utils.Lower("content-length")| == 14;
    }
    assert Hosted[..0] == [];
    HttpRequests.ParsePrinted(m, "/a", "HTTP/1.1", Hosted, 0);
    r := HttpParser.Parse(Packet(m, Hosted));
  }

  /** A request is sent where nobody is asked for credentials: it is taken, and carried out. */
  lemma Request(moves: seq<Move>, s: Session, env: Env, m: HttpParser.HttpMethod, headers: seq<HttpRequests.Header>,
                size: nat, r: HttpParser.Request)
    returns (more: seq<Move>, t: Session, op: StoreOp)
    requires LeadsTo(moves, s) && s.inputs == [LineRead] && !env.authenticate
    requires HttpAdmission.Reads(m, "/a", "HTTP/1.1", headers, size, r)
    ensures Inv(s) && Defined(s) && Enabled(s, env, Line(Packet(m, headers)))
    ensures (t, op) == Step(s, env, Line(Packet(m, headers)))
    ensures more == moves + [Move(env, Line(Packet(m, headers)))] && LeadsTo(more, t)
    ensures r.valid && r.method_ == m && r.uri == "/a" && r.resourceSize == size
    ensures H.RequestDefined(false, r) && H.Admits(env.ftp.users, false, r)
    ensures SessionLines.TakenAsRequest(s, t, r) && SessionLines.Carried(s, t, env, r, op)
  {
    hide Inv, Defined, Step, LeadsTo, HttpParser.Defined, HttpParser.Parse, HttpRequests.Printable,
      HttpRequests.DeclaredSize, HttpRequests.HoldsLastValues, Utils.Contains, HttpRequests.RequestLine, IsHttpPacket,
      SessionLines.TakenAsRequest, SessionLines.Carried, D.Enabled, C.Enabled;
    var line := HttpRequests.RequestLine(m, "/a", "HTTP/1.1");
    var rest := HttpSyntax.Terminated(HttpRequests.LinesOf(headers)) + HttpSyntax.CRLF;
    HttpAdmission.ReadsRequest(m, "/a", "HTTP/1.1", headers, size, r);
    SessionLines.RequestLineDetected(m, "/a");
    SessionLines.LineFreeOfCR(m, "/a");
    assert Packet(m, headers) == line + "\r\n" + rest;
    SessionLines.DetectedIff(line, rest);
    t := Meet(moves, s, env, Line(Packet(m, headers)));
    op := Step(s, env, Line(Packet(m, headers))).1;
    more := moves + [Move(env, Line(Packet(m, headers)))];
    SessionLines.PrintedRequestTaken(s, env, m, "/a", headers, size, r);
    SessionLines.HttpLineCarried(s, env, line, rest);
  }

  /** The final responses of a session so far, with the requests they answer. */
  ghost predicate Has(s: Session, tags: seq<Tag>) {
    |s.ctl.history| == |tags| && forall k :: 0 <= k < |tags| ==> s.ctl.history[k].tag == tags[k]
  }

  lemma BodyCarried(moves: seq<Move>, s: Session, env: Env, file: string)
    returns (more: seq<Move>, t: Session, op: StoreOp)
    requires LeadsTo(moves, s) && s.requests != [] && s.inputs == [BodyRead("/a", |file|)]
    ensures LeadsTo(more, t) && t.inputs == [LineRead] && t.requests == s.requests
    ensures op == if "/a" in env.ftp.files then NoOp else AddFile("/a", file, PutBody(|s.requests| - 1))
    ensures t.ctl.history == s.ctl.history + [Http(Answer(|s.requests| - 1, H.BodyResponse(env.ftp.files, "/a", true)))]
  {
    hide Inv, C.Inv, D.Inv, LeadsTo, PacketDefined, Http, H.BodyResponse;
    t := Meet(moves, s, env, Body(file));
    op := Step(s, env, Body(file)).1;
    more := moves + [Move(env, Body(file))];
    assert [BodyRead("/a", |file|)][1..] == [];
  }

  const Created := Answer(0, HttpResponse.OfStatus(HttpResponse.Created))
  const Fetched := Answer(1, HttpResponse.OfResource(HttpResponse.Ok, "x"))
  const Deleted := Answer(2, HttpResponse.OfStatus(HttpResponse.Ok))

  lemma Puts() returns (moves: seq<Move>, s: Session, op: StoreOp)
    ensures LeadsTo(moves, s) && s.inputs == [LineRead] && |s.requests| == 1 && Has(s, [Created])
    ensures op == AddFile("/a", "x", PutBody(0))
  {
    hide LeadsTo, Inv, Defined, Step, Enabled, HttpResponse.Serialized, HttpResponse.OfStatus, HttpResponse.OfResource,
      H.RequestDefined, H.Admits, HttpAdmission.Reads, Packet, H.Expects;
    moves, s := Started();
    var r := SizedReads();
    var none;
    moves, s, none := Request(moves, s, Met, HttpParser.Put, Sized, 1, r);
    moves, s, op := BodyCarried(moves, s, Met, "x");
  }

  lemma Gets() returns (moves: seq<Move>, s: Session)
    ensures LeadsTo(moves, s) && s.inputs == [LineRead] && |s.requests| == 2 && Has(s, [Created, Fetched])
  {
    hide LeadsTo, Inv, Defined, Step, Enabled, HttpResponse.Serialized, HttpResponse.OfStatus, HttpResponse.OfResource,
      H.RequestDefined, H.Admits, HttpAdmission.Reads, Packet, Listing.Text;
    var added, none;
    moves, s, added := Puts();
    var r := HostedReads(HttpParser.Get);
    moves, s, none := Request(moves, s, Stored, HttpParser.Get, Hosted, 0, r);
  }

  /**
   A client puts "x" under "/a", gets it and deletes it, all through real packets: it is answered by
   201, by 200 with "x", and by 200, and the file is removed.
   */
  lemma PutGetDelete() returns (moves: seq<Move>, s: Session, op: StoreOp)
    ensures LeadsTo(moves, s) && Has(s, [Created, Fetched, Deleted])
    ensures op == RemoveFile("/a", DeleteRequest(2))
  {
    hide LeadsTo, Inv, Defined, Step, Enabled, HttpResponse.Serialized, HttpResponse.OfStatus, HttpResponse.OfResource,
      H.RequestDefined, H.Admits, HttpAdmission.Reads, Packet;
    moves, s := Gets();
    var r := HostedReads(HttpParser.Delete);
    moves, s, op := Request(moves, s, Stored, HttpParser.Delete, Hosted, 0, r);
  }
}
