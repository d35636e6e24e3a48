/**
 The session as the program holds it: an object whose handlers update its queues, buffers and
 command state in place, on a store and a user table shared with other sessions. `View` is the
 object as a value of the step machine, and every method says which function of that machine it
 carries out. An asynchronous operation is a field that says what is outstanding, and a method
 for its completion.
 */
module Session {
  import opened Wrappers
  import opened Messages
  import S = SessionModel
  import SH = SessionHistories
  import opened SessionSteps
  import C = ControlPump
  import D = DataPump
  import F = FtpCommands
  import FtpParser
  import H = HttpHandlers
  import HttpParser
  import HttpResponse
  import Listing
  import MemoryFs
  import StoreHistory
  import U = UserDatabase
  import Up = Upload

  class Session {
    const filesystem: MemoryFs.MemoryFs
    const userDatabase: U.UserDatabase
    const authenticate: bool

    // The session's own state.
    var outputQueue: seq<Message>
    var ftpDataBuffer: seq<D.Entry>
    var loggedInUser: Option<U.User>
    var lastUsername: string
    var lastFtpCommand: FtpParser.FtpCommand
    var currentWorkingDir: string
    var ftpDataAcceptorOpen: bool
    var ftpDataSocket: Option<nat>

    // Tasks posted to the two strands.
    var startPosted: bool
    var outputPosted: seq<Message>
    var dataTasks: seq<D.Task>
    var closes: nat

    // Outstanding asynchronous operations.
    var inputs: seq<S.ControlRead>
    var writing: bool
    var dataWrite: Option<D.Write>
    var accepts: map<nat, S.Purpose>
    var uploads: map<nat, Up.Upload>

    // Numbers for requests and transfers.
    var requestCount: nat
    var transferCount: nat

    // What reached the peers, and histories.
    ghost var written: nat
    ghost var wire: string
    ghost var got: map<nat, string>
    ghost var closed: set<nat>
    ghost var history: seq<Message>
    ghost var sent: seq<Message>
    ghost var failed: bool
    ghost var accepted: seq<D.Download>
    ghost var served: nat
    ghost var half: bool
    ghost var cutShort: bool
    ghost var completed: seq<nat>
    ghost var log: seq<F.Logged>
    ghost var requests: seq<HttpParser.Request>
    ghost var bodies: map<nat, string>
    ghost var origins: seq<nat>

    ghost function Control(): C.Pump
      reads this`outputPosted, this`outputQueue, this`writing, this`written, this`failed, this`history, this`sent,
        this`wire
    {
      C.Pump(outputPosted, outputQueue, writing, written, failed, history, sent, wire)
    }

    ghost function Data(): D.Pump
      reads this`dataTasks, this`ftpDataBuffer, this`dataWrite, this`accepted, this`served, this`half, this`cutShort,
        this`got, this`closed, this`completed
    {
      D.Pump(dataTasks, ftpDataBuffer, dataWrite, accepted, served, half, cutShort, got, closed, completed)
    }

    function Ftp(): F.State
      reads this`loggedInUser, this`lastUsername, this`lastFtpCommand, this`currentWorkingDir, this`ftpDataAcceptorOpen
    {
      F.State(loggedInUser, lastUsername, lastFtpCommand, currentWorkingDir, ftpDataAcceptorOpen)
    }

    ghost function View(): S.Session
      reads this
    {
      S.Session(Control(), Data(), Ftp(), log, requests, bodies, startPosted, inputs, accepts, uploads, closes,
                ftpDataSocket, origins)
    }

    ghost predicate Numbered()
      reads this
    {
      requestCount == |requests| && transferCount == |origins|
    }

    ghost predicate Valid()
      reads this
    {
      Numbered() && SH.Inv(View())
    }

    constructor (filesystem: MemoryFs.MemoryFs, userDatabase: U.UserDatabase, authenticate: bool)
      ensures this.filesystem == filesystem && this.userDatabase == userDatabase && this.authenticate == authenticate
      ensures Numbered() && View() == S.Fresh(false).(startPosted := false)
    {
      this.filesystem, this.userDatabase, this.authenticate := filesystem, userDatabase, authenticate;
      outputQueue, ftpDataBuffer, ftpDataSocket := [], [], None;
      loggedInUser, lastUsername, lastFtpCommand, currentWorkingDir := None, "", FtpParser.Unrecognized, "/";
      ftpDataAcceptorOpen := false;
      startPosted, outputPosted, dataTasks, closes := false, [], [], 0;
      inputs, writing, dataWrite, accepts, uploads := [], false, None, map[], map[];
      requestCount, transferCount := 0, 0;
      written, wire, got, closed := 0, "", map[], {};
      history, sent, failed := [], [], false;
      accepted, served, half, cutShort, completed := [], 0, false, false, [];
      log, requests, bodies, origins := [], [], map[], [];
    }

    // ---------------------------------------------------------------- control output

    method SendMessage(message: Message)
      modifies this`outputPosted, this`history
      ensures Control() == C.Post(old(Control()), message)
    {
      outputPosted := outputPosted + [message];
      history := history + [message];
    }

    /** Start writing the front of the queue. */
    method SendMessageHandler()
      requires outputQueue != []
      modifies this`writing, this`written
      ensures writing && written == 0
    {
      writing := true;
      written := 0;
    }

    /** The task that `SendMessage` posted. */
    method EnqueueMessage()
      requires outputPosted != []
      modifies this`outputPosted, this`outputQueue, this`writing, this`written
      ensures Control() == C.RunPosted(old(Control()))
    {
      var writeInProgress := outputQueue != [];
      outputQueue := outputQueue + [outputPosted[0]];
      outputPosted := outputPosted[1..];
      if !writeInProgress {
        SendMessageHandler();
      }
    }

    /** Some bytes of the message being written reach the wire. */
    method MessageBytesWritten(k: nat)
      requires writing && outputQueue != [] && written + k <= |outputQueue[0].text|
      modifies this`wire, this`written
      ensures Control() == C.Transfer(old(Control()), k)
    {
      wire := wire + outputQueue[0].text[written..written + k];
      written := written + k;
    }

    /** The completion of a write. */
    method MessageWritten(ok: bool)
      requires writing && outputQueue != []
      modifies this`outputQueue, this`writing, this`written, this`sent, this`failed
      ensures Control() == C.Complete(old(Control()), ok)
    {
      writing := false;
      if ok {
        sent := sent + [outputQueue[0]];
        written := 0;
        outputQueue := outputQueue[1..];
        var writeInProgress := outputQueue != [];
        if writeInProgress {
          SendMessageHandler();
        }
      } else {
        failed := true;
      }
    }

    // ---------------------------------------------------------------- data output

    /** Post the task that puts an entry into the buffer. */
    method EnqueueFtpDataHandler(entry: D.Entry)
      modifies this`dataTasks
      ensures dataTasks == old(dataTasks) + [D.Enqueue(entry)]
    {
      dataTasks := dataTasks + [D.Enqueue(entry)];
    }

    /** Post the task that sends the front of the buffer. */
    method SendFtpDataHandler(sock: nat)
      modifies this`dataTasks
      ensures dataTasks == old(dataTasks) + [D.Send(sock)]
    {
      dataTasks := dataTasks + [D.Send(sock)];
    }

    /** The front task, an enqueue. */
    method EnqueueData()
      requires dataTasks != [] && dataTasks[0].Enqueue?
      modifies this`dataTasks, this`ftpDataBuffer
      ensures Data() == D.RunEnqueue(old(Data()))
    {
      var entry := dataTasks[0].entry;
      dataTasks := dataTasks[1..];
      var writeInProgress := ftpDataBuffer != [];
      ftpDataBuffer := ftpDataBuffer + [entry];
      if !writeInProgress {
        SendFtpDataHandler(entry.owner);
      }
    }

    /** The front task, a send: write the front file, or end the transmission. */
    method SendData()
      requires dataTasks != [] && dataTasks[0].Send? && ftpDataBuffer != []
      modifies this`dataTasks, this`ftpDataBuffer, this`dataWrite, this`closed, this`completed, this`served,
        this`half, this`cutShort, this`outputPosted, this`history
      ensures Data() == D.RunSend(old(Data()))
      ensures Control() == if old(ftpDataBuffer)[0].payload.Some? then old(Control())
                           else C.Post(old(Control()), Reply(226, "Done", Finished(old(dataTasks)[0].sock)))
    {
      hide Reply, D.RunSend, C.Post, Control, Data;
      if ftpDataBuffer[0].payload.Some? {
        WriteData();
      } else {
        var sock := dataTasks[0].sock;
        EndTransmission();
        SendMessage(Reply(226, "Done", Finished(sock)));
      }
    }

    method WriteData()
      requires dataTasks != [] && dataTasks[0].Send? && ftpDataBuffer != [] && ftpDataBuffer[0].payload.Some?
      modifies this`dataTasks, this`dataWrite
      ensures Data() == D.RunSend(old(Data()))
    {
      dataWrite := Some(D.Write(dataTasks[0].sock, ftpDataBuffer[0].payload.value, 0));
      dataTasks := dataTasks[1..];
    }

    /** Pop the terminator and close the socket. */
    method EndTransmission()
      requires dataTasks != [] && dataTasks[0].Send? && ftpDataBuffer != [] && ftpDataBuffer[0].payload.None?
      modifies this`dataTasks, this`ftpDataBuffer, this`closed, this`completed, this`served, this`half, this`cutShort
      ensures Data() == D.RunSend(old(Data()))
    {
      var sock := dataTasks[0].sock;
      dataTasks := dataTasks[1..];
      ftpDataBuffer := ftpDataBuffer[1..];
      closed := closed + {sock};
      completed := completed + [sock];
      served, half, cutShort := served + 1, false, cutShort || ftpDataBuffer != [];
    }

    /** Some bytes of the file being written reach the data socket. */
    method FileBytesWritten(k: nat)
      requires dataWrite.Some? && dataWrite.value.done + k <= |dataWrite.value.data|
      modifies this`dataWrite, this`got
      ensures Data() == D.Transfer(old(Data()), k)
    {
      var w := dataWrite.value;
      got := got[w.sock := D.Got(Data(), w.sock) + w.data[w.done..w.done + k]];
      dataWrite := Some(w.(done := w.done + k));
    }

    /** The completion of a file's write. */
    method FileWritten(ok: bool)
      requires dataWrite.Some? && ftpDataBuffer != []
      modifies this`dataWrite, this`ftpDataBuffer, this`dataTasks, this`half, this`cutShort
      ensures Data() == D.Complete(old(Data()), ok)
    {
      var sock := dataWrite.value.sock;
      dataWrite := None;
      ftpDataBuffer := ftpDataBuffer[1..];
      half, cutShort := true, cutShort || !ok;
      if !ok {
        return;
      }
      if ftpDataBuffer != [] {
        SendFtpDataHandler(sock);
      }
    }

    method CloseFtpDataSocket()
      modifies this`closed
      ensures Data() == if ftpDataSocket.Some? then D.Close(old(Data()), ftpDataSocket.value) else old(Data())
    {
      if ftpDataSocket.Some? {
        closed := closed + {ftpDataSocket.value};
      }
    }

    // ---------------------------------------------------------------- accepts and uploads

    /** The data connection of a LIST or RETR is there: send the file and its terminator. */
    method DownloadAccepted(id: nat)
      requires id in accepts && accepts[id].ForDownload?
      modifies this`accepts, this`ftpDataSocket, this`dataTasks, this`accepted
      ensures accepts == old(accepts) - {id} && ftpDataSocket == Some(id)
      ensures Data() == D.Accept(old(Data()), D.Download(id, old(accepts)[id].bytes))
    {
      var file := accepts[id].bytes;
      accepts := accepts - {id};
      accepted := accepted + [D.Download(id, file)];
      ftpDataSocket := Some(id);
      EnqueueFtpDataHandler(D.Entry(id, Some(file)));
      EnqueueFtpDataHandler(D.Entry(id, None));
    }

    /** The data connection of a STOR is there: start reading. */
    method UploadAccepted(id: nat)
      requires id in accepts && accepts[id].ForUpload?
      modifies this`accepts, this`ftpDataSocket, this`uploads
      ensures accepts == old(accepts) - {id} && ftpDataSocket == Some(id)
      ensures uploads == old(uploads)[id := Up.Start(old(accepts)[id].path)]
    {
      var path := accepts[id].path;
      accepts := accepts - {id};
      ftpDataSocket := Some(id);
      uploads := uploads[id := Up.Start(path)];
    }

    method AcceptFailed(id: nat, reason: string)
      requires id in accepts
      modifies this`accepts, this`outputPosted, this`history
      ensures accepts == old(accepts) - {id}
      ensures Control() == C.Post(old(Control()), Reply(426, "Data transfer aborted: " + reason, Aborted(id)))
    {
      hide Reply;
      accepts := accepts - {id};
      SendMessage(Reply(426, "Data transfer aborted: " + reason, Aborted(id)));
    }

    /**
     A read of an upload completes. After a whole chunk the next read is armed first and the
     chunk appended then; after the end of the connection the rest is appended and saving posted.
     */
    method ReceiveFile(id: nat)
      requires id in uploads && Up.Readable(uploads[id])
      modifies this`uploads
      ensures uploads == old(uploads)[id := Up.Read(old(uploads)[id])]
    {
      var chunk := Up.Chunk(uploads[id]);
      var u := uploads[id].(consumed := uploads[id].consumed + |chunk|, readCount := uploads[id].readCount + 1);
      assert chunk == "" ==> u.file + chunk == u.file;
      if |chunk| < Up.CHUNK {
        if |chunk| > 0 {
          u := u.(file := u.file + chunk);
        }
        u := u.(phase := Up.SavePosted);
      } else {
        u := u.(phase := Up.Reading);
        u := u.(file := u.file + chunk);
      }
      uploads := uploads[id := u];
    }

    /** The task of saving: store the file, answer, and close the current data socket. */
    method SaveFile(id: nat) returns (ghost op: S.StoreOp)
      requires id in uploads
      modifies this`uploads, this`outputPosted, this`history, this`closed, filesystem
      ensures uploads == old(uploads)[id := Up.Save(old(uploads)[id])]
      ensures var u := old(uploads)[id];
              var saved := u.path !in old(filesystem.fs);
              && Control() == C.Post(old(Control()),
                   if saved then Reply(226, "File saved", Finished(id)) else Reply(450, "File not saved", Finished(id)))
              && op == (if saved then S.AddFile(u.path, u.file, S.SavedUpload(id)) else S.NoOp)
              && filesystem.fs == StoreHistory.Applied(old(filesystem.fs), op)
      ensures Data() == if ftpDataSocket.Some? then D.Close(old(Data()), ftpDataSocket.value) else old(Data())
    {
      hide Reply, C.Post, D.Close, Control, Data;
      var u := uploads[id];
      uploads := uploads[id := Up.Save(u)];
      var status := filesystem.Add(u.path, u.file);
      if status == MemoryFs.Success {
        op := S.AddFile(u.path, u.file, S.SavedUpload(id));
        SendMessage(Reply(226, "File saved", Finished(id)));
      } else {
        op := S.NoOp;
        SendMessage(Reply(450, "File not saved", Finished(id)));
      }
      CloseFtpDataSocket();
    }

    // ---------------------------------------------------------------- control input

    /** Arm the read of the next line. */
    method ReceiveMessage()
      modifies this`inputs
      ensures inputs == old(inputs) + [S.LineRead]
    {
      inputs := inputs + [S.LineRead];
    }

    /** The read of a line fails. */
    method ReadFailed()
      requires inputs != []
      modifies this`inputs, this`ftpDataAcceptorOpen, this`closes
      ensures inputs == old(inputs)[1..] + [S.LineRead] && closes == old(closes) + 1
      ensures Ftp() == old(Ftp()).(acceptorOpen := false)
    {
      inputs := inputs[1..];
      ftpDataAcceptorOpen := false;
      closes := closes + 1;
      ReceiveMessage();
    }

    // ---------------------------------------------------------------- FTP commands

    /** The command got this outcome's reply and state, and its transfer, if any, waits for its connection. */
    ghost predicate AnsweredBy(o: F.Outcome, request: FtpParser.Request, ctl: C.Pump, log: seq<F.Logged>,
                               accepts: map<nat, S.Purpose>, origins: seq<nat>)
      reads this`outputPosted, this`outputQueue, this`writing, this`written, this`failed, this`history, this`sent,
        this`wire
      reads this`loggedInUser, this`lastUsername, this`lastFtpCommand, this`currentWorkingDir, this`ftpDataAcceptorOpen
      reads this`log, this`accepts, this`origins
    {
      && Ftp() == o.state && this.log == log + [F.LogOf(o, request)]
      && Replied(o, |origins|, ctl, Control())
      && Waits(o.effect, |log|, accepts, origins, this.accepts, this.origins)
    }

    /** Send the reply to a command. */
    method Answer(request: FtpParser.Request, code: nat, text: string, ghost effect: F.Effect := F.Nothing)
      requires effect.Nothing? || effect.Delete?
      modifies this`outputPosted, this`history, this`log
      ensures AnsweredBy(F.Outcome(Ftp(), code, text, effect), request, old(Control()), old(log), accepts, origins)
      ensures Ftp() == old(Ftp())
    {
      hide Reply;
      log := log + [F.Logged(request.command, request.tokens, code)];
      SendMessage(Reply(code, text, Plain));
    }

    /** A transfer is announced, but its connection is not yet waited for. */
    ghost predicate Announced(request: FtpParser.Request, text: string, ctl: C.Pump, log: seq<F.Logged>)
      reads this
    {
      && transferCount == |origins|
      && Control() == C.Post(ctl, Reply(150, text, Opening(|origins|)))
      && this.log == log + [F.Logged(request.command, request.tokens, 150)]
    }

    method Announce(request: FtpParser.Request, text: string)
      requires transferCount == |origins|
      modifies this`outputPosted, this`history, this`log
      ensures Announced(request, text, old(Control()), old(log))
    {
      hide Reply;
      log := log + [F.Logged(request.command, request.tokens, 150)];
      SendMessage(Reply(150, text, Opening(transferCount)));
    }

    /** Wait for the data connection of the transfer just announced. */
    method Accept(effect: F.Effect, ghost request: FtpParser.Request, ghost text: string,
                  ghost ctl: C.Pump, ghost before: seq<F.Logged>)
      requires Announced(request, text, ctl, before) && (effect.StartDownload? || effect.StartUpload?)
      modifies this`accepts, this`origins, this`transferCount
      ensures AnsweredBy(F.Outcome(Ftp(), 150, text, effect), request, ctl, before, old(accepts), old(origins))
      ensures transferCount == |origins|
    {
      hide Reply, C.Post;
      accepts := accepts[transferCount :=
        if effect.StartDownload? then S.ForDownload(effect.bytes) else S.ForUpload(effect.path)];
      origins := origins + [|log| - 1];
      transferCount := transferCount + 1;
    }

    method HandleFtpUser(request: FtpParser.Request)
      modifies this`loggedInUser, this`lastUsername, this`outputPosted, this`history, this`log
      ensures AnsweredBy(F.HandleUser(old(Ftp()), request), request, old(Control()), old(log), accepts, origins)
    {
      hide Reply, C.Post, AnsweredBy, Announced;
      loggedInUser := None;
      if |request.tokens| != 2 {
        Answer(request, 501, "No username provided");
      } else {
        lastUsername := request.tokens[1];
        Answer(request, 331, "Please provide password");
      }
    }

    method HandleFtpPass(request: FtpParser.Request)
      modifies this`loggedInUser, this`outputPosted, this`history, this`log
      ensures AnsweredBy(F.HandlePass(old(Ftp()),
                F.Env(userDatabase.users, filesystem.fs, [], None, false), request), request,
                         old(Control()), old(log), accepts, origins)
    {
      hide Reply, C.Post, AnsweredBy, Announced, U.Verified;
      if lastFtpCommand != FtpParser.User {
        Answer(request, 503, "Please specify username first");
      } else if |request.tokens| != 2 {
        Answer(request, 501, "No password provided");
      } else {
        var user := U.User(lastUsername, request.tokens[1]);
        var verified := userDatabase.Verify(user);
        if verified {
          loggedInUser := Some(user);
          Answer(request, 230, "Login successful");
        } else {
          Answer(request, 530, "Failed to log in");
        }
      }
    }

    method HandleFtpList(request: FtpParser.Request) returns (ghost listing: seq<string>)
      requires transferCount == |origins|
      modifies this`outputPosted, this`history, this`log, this`accepts, this`origins, this`transferCount
      ensures MemoryFs.IsListing(filesystem.fs, listing) && transferCount == |origins|
      ensures AnsweredBy(F.HandleList(old(Ftp()),
                F.Env(userDatabase.users, filesystem.fs, listing, None, false)), request,
                         old(Control()), old(log), old(accepts), old(origins))
    {
      hide Reply, C.Post, Control, AnsweredBy, Announced, Listing.Text, MemoryFs.IsListing;
      if loggedInUser.None? {
        listing := MemoryFs.SomeListing(filesystem.fs);
        Answer(request, 530, "Not logged in");
        return;
      }
      Announce(request, "Listing all objects stored");
      var filepaths := filesystem.List();
      listing := filepaths;
      var directoryListing := Listing.Build(filepaths);
      Accept(F.StartDownload(directoryListing), request, "Listing all objects stored", old(Control()), old(log));
    }

    method HandleFtpRetr(request: FtpParser.Request)
      requires transferCount == |origins|
      requires loggedInUser.Some? && ftpDataAcceptorOpen ==> |request.tokens| >= 2
      modifies this`outputPosted, this`history, this`log, this`accepts, this`origins, this`transferCount
      ensures transferCount == |origins|
      ensures AnsweredBy(F.HandleRetr(old(Ftp()),
                F.Env(userDatabase.users, filesystem.fs, [], None, false), request), request,
                         old(Control()), old(log), old(accepts), old(origins))
    {
      hide Reply, C.Post, Control, AnsweredBy, Announced;
      if loggedInUser.None? {
        Answer(request, 530, "Not logged in");
        return;
      }
      if !ftpDataAcceptorOpen {
        Answer(request, 425, "Error opening data connection");
        return;
      }
      var status, file := filesystem.Get(currentWorkingDir + request.tokens[1]);
      if status == MemoryFs.Success {
        Announce(request, "Sending file");
        Accept(F.StartDownload(file), request, "Sending file", old(Control()), old(log));
      } else {
        Answer(request, 550, "File not found");
      }
    }

    method HandleFtpStor(request: FtpParser.Request)
      requires transferCount == |origins|
      modifies this`outputPosted, this`history, this`log, this`accepts, this`origins, this`transferCount
      ensures transferCount == |origins|
      ensures AnsweredBy(F.HandleStor(old(Ftp()), request), request,
                         old(Control()), old(log), old(accepts), old(origins))
    {
      hide Reply, C.Post, Control, AnsweredBy, Announced;
      if loggedInUser.None? {
        Answer(request, 530, "Not logged in");
        return;
      }
      if |request.tokens| != 2 {
        Answer(request, 501, "No file specified");
        return;
      }
      if !ftpDataAcceptorOpen {
        Answer(request, 425, "Faile to open data connection");
        return;
      }
      Announce(request, "Ready to receive");
      Accept(F.StartUpload(currentWorkingDir + request.tokens[1]), request,
        "Ready to receive", old(Control()), old(log));
    }

    method HandleFtpDele(request: FtpParser.Request) returns (deleted: bool)
      requires loggedInUser.Some? ==> |request.tokens| >= 2
      modifies this`outputPosted, this`history, this`log, filesystem
      ensures AnsweredBy(F.HandleDele(old(Ftp()),
                F.Env(old(userDatabase.users), old(filesystem.fs), [], None, false), request), request,
                         old(Control()), old(log), accepts, origins)
      ensures deleted == F.HandleDele(old(Ftp()),
                F.Env(old(userDatabase.users), old(filesystem.fs), [], None, false), request).effect.Delete?
      ensures filesystem.fs ==
                if deleted then MemoryFs.Removed(old(filesystem.fs), request.tokens[1]) else old(filesystem.fs)
    {
      hide Reply, C.Post, AnsweredBy, Announced;
      if loggedInUser.None? {
        Answer(request, 530, "Not logged in");
        return false;
      }
      var status := filesystem.Remove(request.tokens[1]);
      deleted := status == MemoryFs.Success;
      if deleted {
        Answer(request, 250, "File deleted", F.Delete(request.tokens[1]));
      } else {
        Answer(request, 550, "Unable to delete file");
      }
    }

    /** The new data acceptor, or none and whether the failure left the acceptor open, come from outside. */
    method HandleFtpPasv(request: FtpParser.Request, endpoint: Option<F.Endpoint>, openAfterFailure: bool)
      modifies this`ftpDataAcceptorOpen, this`outputPosted, this`history, this`log
      ensures AnsweredBy(F.HandlePasv(old(Ftp()),
                F.Env(userDatabase.users, filesystem.fs, [], endpoint, openAfterFailure)), request,
                         old(Control()), old(log), accepts, origins)
    {
      hide Reply, C.Post, AnsweredBy, Announced, F.PassiveText;
      if loggedInUser.None? {
        Answer(request, 530, "Not logged in");
        return;
      }
      if endpoint.None? {
        ftpDataAcceptorOpen := openAfterFailure;
        Answer(request, 421, "Passive mode not supported");
      } else {
        ftpDataAcceptorOpen := true;
        var stream := F.FormatPassive(endpoint.value);
        Answer(request, 227, "Entering passive mode " + stream);
      }
    }

    method HandleFtpType(request: FtpParser.Request)
      modifies this`outputPosted, this`history, this`log
      ensures AnsweredBy(F.HandleType(old(Ftp())), request, old(Control()), old(log), accepts, origins)
    {
      hide Reply, C.Post, Control, AnsweredBy, Announced;
      if loggedInUser.None? {
        Answer(request, 530, "Not logged in");
      } else {
        Answer(request, 200, "Mode switched");
      }
    }

    method HandleFtpQuit(request: FtpParser.Request)
      modifies this`loggedInUser, this`lastUsername, this`lastFtpCommand, this`currentWorkingDir,
        this`outputPosted, this`history, this`log
      ensures AnsweredBy(F.HandleQuit(old(Ftp())), request, old(Control()), old(log), accepts, origins)
    {
      hide Reply, C.Post, AnsweredBy, Announced;
      loggedInUser := None;
      currentWorkingDir := "/";
      lastFtpCommand := FtpParser.Unrecognized;
      lastUsername := "";
      Answer(request, 221, "Connection closed");
    }

    method HandleFtpCwd(request: FtpParser.Request)
      modifies this`currentWorkingDir, this`outputPosted, this`history, this`log
      ensures AnsweredBy(F.HandleCwd(old(Ftp()), request), request, old(Control()), old(log), accepts, origins)
    {
      hide Reply, C.Post, AnsweredBy, Announced;
      if loggedInUser.None? {
        Answer(request, 530, "Not logged in");
      } else if |request.tokens| != 2 {
        Answer(request, 501, "No directory specified");
      } else {
        currentWorkingDir := currentWorkingDir + request.tokens[1] + "/";
        Answer(request, 250, "Working directory changed");
      }
    }

    /** The table of handlers. */
    method DispatchFtp(request: FtpParser.Request, endpoint: Option<F.Endpoint>, openAfterFailure: bool)
      returns (ghost listing: seq<string>, ghost deleted: bool)
      requires transferCount == |origins| && F.RequestDefined(Ftp(), request)
      modifies this`loggedInUser, this`lastUsername, this`lastFtpCommand, this`currentWorkingDir,
        this`ftpDataAcceptorOpen, this`outputPosted, this`history, this`log,
        this`accepts, this`origins, this`transferCount, filesystem
      ensures MemoryFs.IsListing(old(filesystem.fs), listing) && transferCount == |origins|
      ensures var o := F.Dispatch(old(Ftp()),
                F.Env(old(userDatabase.users), old(filesystem.fs), listing, endpoint, openAfterFailure), request);
              && AnsweredBy(o, request, old(Control()), old(log), old(accepts), old(origins))
              && deleted == o.effect.Delete?
              && (deleted ==> |request.tokens| >= 2 && o.effect.path == request.tokens[1])
              && filesystem.fs == (if o.effect.Delete? then MemoryFs.Removed(old(filesystem.fs), o.effect.path)
                                   else old(filesystem.fs))
    {
      hide Data, F.HandleUser, F.HandlePass, F.HandleList, F.HandleRetr, F.HandleStor, F.HandleDele, F.HandlePasv,
        F.HandleType, F.HandleQuit, F.HandleCwd, AnsweredBy, MemoryFs.IsListing, Reply, C.Post, Control,
        MemoryFs.Removed;
      listing := MemoryFs.SomeListing(filesystem.fs);
      deleted := false;
      ghost var s, met := Ftp(), F.Env(userDatabase.users, filesystem.fs, [], None, false);
      match request.command {
        case User => HandleFtpUser(request);
        case Pass => HandleFtpPass(request);
        case List => listing := HandleFtpList(request);
        case Retr => HandleFtpRetr(request);
        case Stor => HandleFtpStor(request);
        case Dele =>
          var d := HandleFtpDele(request);
          deleted := d;
        case Pasv => HandleFtpPasv(request, endpoint, openAfterFailure);
        case Type => HandleFtpType(request);
        case Quit => HandleFtpQuit(request);
        case Cwd => HandleFtpCwd(request);
      }
      ghost var env := F.Env(old(userDatabase.users), old(filesystem.fs), listing, endpoint, openAfterFailure);
      F.EnvParts(s, met, env, request);
      F.EnvParts(s, met.(listing := listing), env, request);
      F.EnvParts(s, met.(endpoint := endpoint, openAfterFailure := openAfterFailure), env, request);
      F.DispatchEffects(s, env, request);
    }

    /** Carry out a recognised command. */
    method HandleCommand(request: FtpParser.Request, endpoint: Option<F.Endpoint>, openAfterFailure: bool)
      returns (ghost listing: seq<string>, ghost op: S.StoreOp)
      requires transferCount == |origins| && F.RequestDefined(Ftp(), request)
      modifies this`loggedInUser, this`lastUsername, this`lastFtpCommand, this`currentWorkingDir,
        this`ftpDataAcceptorOpen, this`outputPosted, this`history, this`log,
        this`accepts, this`origins, this`transferCount, filesystem
      ensures MemoryFs.IsListing(old(filesystem.fs), listing) && transferCount == |origins|
      ensures var o := F.Handle(old(Ftp()),
                F.Env(old(userDatabase.users), old(filesystem.fs), listing, endpoint, openAfterFailure), request);
              && AnsweredBy(o, request, old(Control()), old(log), old(accepts), old(origins))
              && op == (if o.effect.Delete? then S.RemoveFile(o.effect.path, S.DeleCommand(|old(log)|)) else S.NoOp)
              && filesystem.fs == StoreHistory.Applied(old(filesystem.fs), op)
    {
      hide F.Dispatch, F.RequestDefined, MemoryFs.IsListing, Reply, C.Post;
      ghost var deleted;
      listing, deleted := DispatchFtp(request, endpoint, openAfterFailure);
      lastFtpCommand := request.command;
      op := if deleted then S.RemoveFile(request.tokens[1], S.DeleCommand(|old(log)|)) else S.NoOp;
    }

    /** A line that is no HTTP request: handle the command, and read on. */
    method HandleFtp(packet: string, endpoint: Option<F.Endpoint>, openAfterFailure: bool)
      returns (ghost listing: seq<string>, ghost op: S.StoreOp)
      requires transferCount == |origins| && FtpParser.Defined(packet)
      requires FtpParser.Parse(packet).valid ==> F.RequestDefined(Ftp(), FtpParser.Parse(packet))
      modifies this`loggedInUser, this`lastUsername, this`lastFtpCommand, this`currentWorkingDir,
        this`ftpDataAcceptorOpen, this`outputPosted, this`history, this`log,
        this`accepts, this`origins, this`transferCount, this`inputs, filesystem
      ensures MemoryFs.IsListing(old(filesystem.fs), listing) && transferCount == |origins|
      ensures filesystem.fs == StoreHistory.Applied(old(filesystem.fs), op)
      ensures inputs == old(inputs) + [S.LineRead]
      ensures var request := FtpParser.Parse(packet);
              if request.valid then
                var o := F.Handle(old(Ftp()),
                F.Env(old(userDatabase.users), old(filesystem.fs), listing, endpoint, openAfterFailure), request);
                && AnsweredBy(o, request, old(Control()), old(log), old(accepts), old(origins))
                && op == (if o.effect.Delete? then S.RemoveFile(o.effect.path, S.DeleCommand(|old(log)|)) else S.NoOp)
              else
                && Control() == C.Post(old(Control()), Reply(500, "", Plain)) && op == S.NoOp
                && Ftp() == old(Ftp()) && log == old(log) && accepts == old(accepts) && origins == old(origins)
    {
      hide F.Handle, F.RequestDefined, MemoryFs.IsListing, Reply, FtpParser.Parse, FtpParser.Defined, C.Post,
        AnsweredBy, Control, Ftp;
      var parser := new FtpParser.Parser(packet);
      var request := parser.View();
      op := S.NoOp;
      if request.valid {
        listing, op := HandleCommand(request, endpoint, openAfterFailure);
      } else {
        listing := MemoryFs.SomeListing(filesystem.fs);
        SendMessage(Reply(500, "", Plain));
      }
      ReceiveMessage();
    }

    method FtpLineArrived(packet: string, endpoint: Option<F.Endpoint>, openAfterFailure: bool)
      returns (ghost listing: seq<string>, ghost op: S.StoreOp)
      requires Numbered() && FtpParser.Defined(packet)
      requires FtpParser.Parse(packet).valid ==> F.RequestDefined(Ftp(), FtpParser.Parse(packet))
      modifies this, filesystem
      ensures MemoryFs.IsListing(old(filesystem.fs), listing) && Numbered()
      ensures filesystem.fs == StoreHistory.Applied(old(filesystem.fs), op)
      ensures (View(), op) == S.FtpLine(old(View()),
                S.Env(F.Env(old(userDatabase.users), old(filesystem.fs), listing, endpoint, openAfterFailure),
                      authenticate),
                FtpParser.Parse(packet))
    {
      hide F.Handle, F.RequestDefined, MemoryFs.IsListing, Reply, FtpParser.Parse, FtpParser.Defined, C.Post,
        StoreHistory.Applied, Replied, Waits, F.LogOf, S.FtpLine, Data, Control, Ftp;
      ghost var s, r := View(), FtpParser.Parse(packet);
      listing, op := HandleFtp(packet, endpoint, openAfterFailure);
      LineDoneIs(s,
        S.Env(F.Env(old(userDatabase.users), old(filesystem.fs), listing, endpoint, openAfterFailure), authenticate),
        r, View(), op);
    }

    // ---------------------------------------------------------------- HTTP requests

    method SendResponse(tag: Tag)
      requires IsHttp(tag)
      modifies this`outputPosted, this`history
      ensures Control() == C.Post(old(Control()), S.Http(tag))
    {
      hide HttpResponse.Serialized, Control, C.Post;
      var text := HttpResponse.ToText(tag.response);
      SendMessage(Message(text, tag));
    }

    method AuthHttpUser(parser: HttpParser.Parser) returns (authorized: bool)
      requires parser.valid && H.RequestDefined(authenticate, parser.View())
      ensures authorized == H.Authorized(userDatabase.users, authenticate, parser.View())
    {
      hide HttpParser.AuthInfoOf, HttpParser.AuthDefined, U.Verified;
      if authenticate {
        var authInfo := parser.GetAuthInfo();
        authorized := userDatabase.Verify(U.User(authInfo.value.username, authInfo.value.password));
      } else {
        authorized := true;
      }
    }

    method HandleHttpGet(uri: string) returns (ghost listing: seq<string>)
      requires requestCount > 0
      modifies this`outputPosted, this`history, this`inputs
      ensures MemoryFs.IsListing(filesystem.fs, listing)
      ensures Control() == C.Post(old(Control()),
                S.Http(Messages.Answer(requestCount - 1, H.HandleGet(filesystem.fs, listing, uri))))
      ensures inputs == old(inputs) + [S.LineRead]
    {
      hide Control, C.Post, S.Http, MemoryFs.IsListing, Listing.Text, HttpResponse.OfResource, HttpResponse.OfStatus;
      if uri == "/" {
        var filepaths := filesystem.List();
        listing := filepaths;
        var response := Listing.Build(filepaths);
        SendResponse(Messages.Answer(requestCount - 1, HttpResponse.OfResource(HttpResponse.Ok, response)));
      } else {
        listing := MemoryFs.SomeListing(filesystem.fs);
        var status, file := filesystem.Get(uri);
        if status == MemoryFs.Success {
          SendResponse(Messages.Answer(requestCount - 1, HttpResponse.OfResource(HttpResponse.Ok, file)));
        } else {
          SendResponse(Messages.Answer(requestCount - 1, HttpResponse.OfStatus(HttpResponse.NotFound)));
        }
      }
      ReceiveMessage();
    }

    /** Invite the body if the client waits for that, and read it. */
    method HandleHttpPut(parser: HttpParser.Parser)
      requires requestCount > 0
      modifies this`outputPosted, this`history, this`inputs
      ensures var fields := parser.headerFields;
              Control() ==
                if "expect" in fields && fields["expect"] == "100-continue"
                then C.Post(old(Control()),
                       S.Http(Interim(requestCount - 1, HttpResponse.OfStatus(HttpResponse.Continue))))
                else old(Control())
      ensures inputs == old(inputs) + [S.BodyRead(parser.uri, parser.resourceSize)]
    {
      hide Control, C.Post, S.Http, HttpResponse.OfStatus;
      var expected := parser.Get("expect");
      if expected == Some("100-continue") {
        SendResponse(Interim(requestCount - 1, HttpResponse.OfStatus(HttpResponse.Continue)));
      }
      inputs := inputs + [S.BodyRead(parser.uri, parser.resourceSize)];
    }

    method HandleHttpDelete(uri: string) returns (deleted: bool)
      requires requestCount > 0
      modifies this`outputPosted, this`history, this`inputs, filesystem
      ensures deleted == (uri in old(filesystem.fs)) && filesystem.fs == MemoryFs.Removed(old(filesystem.fs), uri)
      ensures Control() == C.Post(old(Control()),
                S.Http(Messages.Answer(requestCount - 1,
                  HttpResponse.OfStatus(if deleted then HttpResponse.Ok else HttpResponse.NotFound))))
      ensures inputs == old(inputs) + [S.LineRead]
    {
      hide Control, C.Post, S.Http, HttpResponse.OfStatus;
      var status := filesystem.Remove(uri);
      deleted := status == MemoryFs.Success;
      if deleted {
        SendResponse(Messages.Answer(requestCount - 1, HttpResponse.OfStatus(HttpResponse.Ok)));
      } else {
        SendResponse(Messages.Answer(requestCount - 1, HttpResponse.OfStatus(HttpResponse.NotFound)));
      }
      ReceiveMessage();
    }

    /** The head of an HTTP request: answer it, or read its body first. */
    method HandleHttp(packet: string) returns (ghost listing: seq<string>, ghost op: S.StoreOp)
      requires HttpParser.Defined(packet) && H.RequestDefined(authenticate, HttpParser.Parse(packet))
      requires requestCount == |requests|
      modifies this`outputPosted, this`history, this`inputs, this`requests, this`requestCount, filesystem
      ensures MemoryFs.IsListing(old(filesystem.fs), listing) && requestCount == |requests|
      ensures requests == old(requests) + [HttpParser.Parse(packet)]
      ensures Served(H.Handle(userDatabase.users, old(filesystem.fs), listing, authenticate, HttpParser.Parse(packet)),
                     |old(requests)|, old(Control()), old(inputs), Control(), inputs, op)
      ensures filesystem.fs == StoreHistory.Applied(old(filesystem.fs), op)
    {
      hide HttpParser.Defined, HttpParser.Parse, H.HandleGet, H.Authorized, Control, C.Post, S.Http, MemoryFs.IsListing,
        HttpResponse.OfStatus, HttpResponse.Challenge, HttpParser.AuthInfoOf, HttpParser.AuthDefined;
      var parser := new HttpParser.Parser(packet);
      requests := requests + [parser.View()];
      requestCount := requestCount + 1;
      op := S.NoOp;
      listing := MemoryFs.SomeListing(filesystem.fs);
      if !parser.valid {
        SendResponse(Refusal(requestCount - 1, HttpResponse.OfStatus(HttpResponse.BadRequest)));
        return;
      }
      var authorized := AuthHttpUser(parser);
      if !authorized {
        SendResponse(Refusal(requestCount - 1, HttpResponse.Challenge()));
        return;
      }
      match parser.method_ {
        case Get => listing := HandleHttpGet(parser.uri);
        case Put => HandleHttpPut(parser);
        case Delete =>
          var deleted := HandleHttpDelete(parser.uri);
          if deleted {
            op := S.RemoveFile(parser.uri, S.DeleteRequest(requestCount - 1));
          }
      }
    }

    /** The body read of a PUT is over. */
    method BodyReceived(file: string, ok: bool) returns (ghost op: S.StoreOp)
      requires inputs != [] && inputs[0].BodyRead? && requestCount > 0
      modifies this`outputPosted, this`history, this`inputs, this`bodies, filesystem
      ensures inputs == old(inputs)[1..] + [S.LineRead]
      ensures bodies == if ok then old(bodies)[requestCount - 1 := file] else old(bodies)
      ensures var path := old(inputs)[0].path;
              && Control() == C.Post(old(Control()),
                   S.Http(Messages.Answer(requestCount - 1, H.BodyResponse(old(filesystem.fs), path, ok))))
              && op == (if ok && path !in old(filesystem.fs) then S.AddFile(path, file, S.PutBody(requestCount - 1))
                        else S.NoOp)
              && filesystem.fs == StoreHistory.Applied(old(filesystem.fs), op)
    {
      hide Control, C.Post, S.Http, HttpResponse.OfStatus;
      var path := inputs[0].path;
      inputs := inputs[1..];
      op := S.NoOp;
      if !ok {
        SendResponse(Messages.Answer(requestCount - 1, HttpResponse.OfStatus(HttpResponse.InternalServerError)));
      } else {
        bodies := bodies[requestCount - 1 := file];
        var status := filesystem.Add(path, file);
        if status == MemoryFs.Success {
          op := S.AddFile(path, file, S.PutBody(requestCount - 1));
          SendResponse(Messages.Answer(requestCount - 1, HttpResponse.OfStatus(HttpResponse.Created)));
        } else {
          SendResponse(Messages.Answer(requestCount - 1, HttpResponse.OfStatus(HttpResponse.NotFound)));
        }
      }
      ReceiveMessage();
    }

    method HttpLineArrived(packet: string, ghost endpoint: Option<F.Endpoint>, ghost openAfterFailure: bool)
      returns (ghost listing: seq<string>, ghost op: S.StoreOp)
      requires Numbered() && HttpParser.Defined(packet) && H.RequestDefined(authenticate, HttpParser.Parse(packet))
      modifies this, filesystem
      ensures MemoryFs.IsListing(old(filesystem.fs), listing) && Numbered()
      ensures filesystem.fs == StoreHistory.Applied(old(filesystem.fs), op)
      ensures (View(), op) == S.HttpRequest(old(View()),
                S.Env(F.Env(old(userDatabase.users), old(filesystem.fs), listing, endpoint, openAfterFailure),
                      authenticate),
                HttpParser.Parse(packet))
    {
      hide HttpParser.Defined, HttpParser.Parse, H.Handle, H.RequestDefined, Control, Data, Ftp, C.Post, S.Http, Served,
        S.HttpRequest, MemoryFs.IsListing, StoreHistory.Applied;
      ghost var s, r := View(), HttpParser.Parse(packet);
      ghost var users, files := userDatabase.users, filesystem.fs;
      listing, op := HandleHttp(packet);
      ServedIs(s, S.Env(F.Env(users, files, listing, endpoint, openAfterFailure), authenticate),
        r, View(), op);
    }

    // ---------------------------------------------------------------- what the strands and the network call

    /** Post the first read, and greet a client that came in on an FTP port. */
    method Start(ftpClient: bool)
      requires Numbered() && View() == S.Fresh(false).(startPosted := false)
      modifies this
      ensures View() == S.Fresh(ftpClient) && Valid()
    {
      hide Reply, SH.Inv, Control, Data, Ftp, C.Post;
      SH.FreshInv(ftpClient);
      startPosted := true;
      if ftpClient {
        SendMessage(Reply(220, "Welcome to ObjectStorage server", Plain));
      }
    }

    /** The task that `Start` posted. */
    method OnStart()
      requires Valid() && startPosted
      modifies this
      ensures Valid() && forall env :: Took(old(View()), env, S.Starting, View(), S.NoOp)
    {
      hide SH.Inv, Took, Control, Data, Ftp;
      ghost var s := View();
      startPosted := false;
      ReceiveMessage();
      ghost var t := View();
      forall env ensures Took(s, env, S.Starting, t, S.NoOp) {
        SimpleTaken(s, env);
      }
      TookKeeps(s, S.Starting, t);
    }

    method OnPostedMessage()
      requires Valid() && outputPosted != []
      modifies this
      ensures Valid() && forall env :: Took(old(View()), env, S.Control(C.Running), View(), S.NoOp)
    {
      hide SH.Inv, Took, Data, Ftp, C.RunPosted;
      ghost var s := View();
      EnqueueMessage();
      ghost var t := View();
      forall env ensures Took(s, env, S.Control(C.Running), t, S.NoOp) {
        ControlTaken(s, env, C.Running);
      }
      TookKeeps(s, S.Control(C.Running), t);
    }

    method OnMessageBytes(k: nat)
      requires Valid() && C.Enabled(Control(), C.Transferring(k))
      modifies this
      ensures Valid() && forall env :: Took(old(View()), env, S.Control(C.Transferring(k)), View(), S.NoOp)
    {
      hide SH.Inv, Took, Data, Ftp, C.Transfer;
      ghost var s := View();
      WritingHasFront(s);
      MessageBytesWritten(k);
      ghost var t := View();
      forall env ensures Took(s, env, S.Control(C.Transferring(k)), t, S.NoOp) {
        ControlTaken(s, env, C.Transferring(k));
      }
      TookKeeps(s, S.Control(C.Transferring(k)), t);
    }

    method OnMessageWritten(ok: bool)
      requires Valid() && C.Enabled(Control(), C.Completing(ok))
      modifies this
      ensures Valid() && forall env :: Took(old(View()), env, S.Control(C.Completing(ok)), View(), S.NoOp)
    {
      hide SH.Inv, Took, Data, Ftp, C.Complete;
      ghost var s := View();
      WritingHasFront(s);
      MessageWritten(ok);
      ghost var t := View();
      forall env ensures Took(s, env, S.Control(C.Completing(ok)), t, S.NoOp) {
        ControlTaken(s, env, C.Completing(ok));
      }
      TookKeeps(s, S.Control(C.Completing(ok)), t);
    }

    /** The front task of the data strand. */
    method RunDataTask()
      requires Data().tasks != [] && (Data().tasks[0].Send? ==> Data().buffer != [])
      modifies this`dataTasks, this`ftpDataBuffer, this`dataWrite, this`closed, this`completed, this`served,
        this`half, this`cutShort, this`outputPosted, this`history
      ensures Data() == D.RunTask(old(Data()))
      ensures Control() == if old(Data()).tasks[0].Send? && old(Data()).buffer[0].payload.None?
                           then C.Post(old(Control()), Reply(226, "Done", Finished(old(Data()).tasks[0].sock)))
                           else old(Control())
    {
      hide Control, D.RunEnqueue, D.RunSend, C.Post, Reply;
      if dataTasks[0].Enqueue? {
        EnqueueData();
      } else {
        SendData();
      }
    }

    method OnDataTask()
      requires Valid() && Data().tasks != []
      modifies this
      ensures Valid() && forall env :: Took(old(View()), env, S.DataTasking, View(), S.NoOp)
    {
      hide SH.Inv, Took, Control, Data, Ftp, S.DataTask, D.RunTask, C.Post, Reply;
      ghost var s := View();
      SendHasFront(s);
      RunDataTask();
      ghost var t := View();
      DataTaskParts(s, t);
      forall env ensures Took(s, env, S.DataTasking, t, S.NoOp) {
        DataTaskTaken(s, env);
      }
      TookKeeps(s, S.DataTasking, t);
    }

    method OnFileBytes(k: nat)
      requires Valid() && D.Enabled(Data(), D.Transferring(k))
      modifies this
      ensures Valid() && forall env :: Took(old(View()), env, S.Data(D.Transferring(k)), View(), S.NoOp)
    {
      hide SH.Inv, Took, Control, Ftp, D.Transfer;
      ghost var s := View();
      SendHasFront(s);
      FileBytesWritten(k);
      ghost var t := View();
      forall env ensures Took(s, env, S.Data(D.Transferring(k)), t, S.NoOp) {
        DataTaken(s, env, D.Transferring(k));
      }
      TookKeeps(s, S.Data(D.Transferring(k)), t);
    }

    method OnFileWritten(ok: bool)
      requires Valid() && D.Enabled(Data(), D.Completing(ok))
      modifies this
      ensures Valid() && forall env :: Took(old(View()), env, S.Data(D.Completing(ok)), View(), S.NoOp)
    {
      hide SH.Inv, Took, Control, Ftp, D.Complete;
      ghost var s := View();
      SendHasFront(s);
      FileWritten(ok);
      ghost var t := View();
      forall env ensures Took(s, env, S.Data(D.Completing(ok)), t, S.NoOp) {
        DataTaken(s, env, D.Completing(ok));
      }
      TookKeeps(s, S.Data(D.Completing(ok)), t);
    }

    method OnAccepted(id: nat)
      requires Valid() && id in accepts
      modifies this
      ensures Valid() && forall env :: Took(old(View()), env, S.Accepting(id), View(), S.NoOp)
    {
      hide SH.Inv, Took, Control, Data, Ftp, D.Accept;
      ghost var s := View();
      if accepts[id].ForDownload? {
        DownloadAccepted(id);
      } else {
        UploadAccepted(id);
      }
      ghost var t := View();
      forall env ensures Took(s, env, S.Accepting(id), t, S.NoOp) {
        AcceptTaken(s, env, id);
      }
      TookKeeps(s, S.Accepting(id), t);
    }

    method OnAcceptFailed(id: nat, reason: string)
      requires Valid() && id in accepts
      modifies this
      ensures Valid() && forall env :: Took(old(View()), env, S.AcceptFailing(id, reason), View(), S.NoOp)
    {
      hide SH.Inv, Took, Control, Data, Ftp, C.Post, Reply;
      ghost var s := View();
      AcceptFailed(id, reason);
      ghost var t := View();
      forall env ensures Took(s, env, S.AcceptFailing(id, reason), t, S.NoOp) {
        SimpleTaken(s, env);
      }
      TookKeeps(s, S.AcceptFailing(id, reason), t);
    }

    /** Bytes arrive on the data socket of an upload, or its connection ends. */
    method OnUploadInput(id: nat, move: Up.Event)
      requires Valid() && id in uploads && (move.Arriving? || move.Ending?) && Up.Enabled(uploads[id], move)
      modifies this
      ensures Valid() && forall env :: Took(old(View()), env, S.UploadStep(id, move), View(), S.NoOp)
    {
      hide SH.Inv, Took, Control, Data, Ftp, Up.Next;
      ghost var s := View();
      uploads := uploads[id := Up.Next(uploads[id], move)];
      ghost var t := View();
      forall env ensures Took(s, env, S.UploadStep(id, move), t, S.NoOp) {
        UploadTaken(s, env, id, move);
      }
      TookKeeps(s, S.UploadStep(id, move), t);
    }

    /** A read of an upload completes. */
    method OnUploadRead(id: nat)
      requires Valid() && id in uploads && Up.Readable(uploads[id])
      modifies this
      ensures Valid() && forall env :: Took(old(View()), env, S.UploadStep(id, Up.Completing), View(), S.NoOp)
    {
      hide SH.Inv, Took, Control, Data, Ftp, Up.Read, Up.Readable;
      ghost var s := View();
      ReceiveFile(id);
      ghost var t := View();
      forall env ensures Took(s, env, S.UploadStep(id, Up.Completing), t, S.NoOp) {
        UploadTaken(s, env, id, Up.Completing);
      }
      TookKeeps(s, S.UploadStep(id, Up.Completing), t);
    }

    method OnLineFailed()
      requires Valid() && inputs != [] && inputs[0].LineRead?
      modifies this
      ensures Valid() && forall env :: Took(old(View()), env, S.LineFailing, View(), S.NoOp)
    {
      hide SH.Inv, Took, Control, Data;
      ghost var s := View();
      ReadFailed();
      ghost var t := View();
      forall env ensures Took(s, env, S.LineFailing, t, S.NoOp) {
        SimpleTaken(s, env);
      }
      TookKeeps(s, S.LineFailing, t);
    }

    /** The task that a failed read posted. */
    method OnClose()
      requires Valid() && closes > 0
      modifies this
      ensures Valid() && forall env :: Took(old(View()), env, S.ClosingTask, View(), S.NoOp)
    {
      hide SH.Inv, Took, Control, Data, Ftp, D.Close;
      ghost var s := View();
      closes := closes - 1;
      CloseFtpDataSocket();
      ghost var t := View();
      forall env ensures Took(s, env, S.ClosingTask, t, S.NoOp) {
        SimpleTaken(s, env);
      }
      TookKeeps(s, S.ClosingTask, t);
    }

    // The remaining steps touch the shared store. What else they meet is a listing of it and, for
    // PASV, the new data acceptor.

    method OnSave(id: nat, ghost env: S.Env) returns (ghost op: S.StoreOp)
      requires Valid() && id in uploads && uploads[id].phase == Up.SavePosted
      requires env.ftp.files == filesystem.fs
      modifies this, filesystem
      ensures Valid() && Took(old(View()), env, S.Saving(id), View(), op)
      ensures filesystem.fs == StoreHistory.Applied(old(filesystem.fs), op)
    {
      hide SH.Inv, Took, Control, Data, Ftp, D.Close, C.Post, Reply, StoreHistory.Applied, Up.Save;
      ghost var s := View();
      SaveTaken(s, env, id);
      op := SaveFile(id);
      TookInv(s, env, S.Saving(id), View(), op);
    }

    method OnBody(file: string, ghost env: S.Env) returns (ghost op: S.StoreOp)
      requires Valid() && inputs != [] && inputs[0].BodyRead? && |file| == inputs[0].size
      requires env.ftp.files == filesystem.fs
      modifies this, filesystem
      ensures Valid() && Took(old(View()), env, S.Body(file), View(), op)
      ensures filesystem.fs == StoreHistory.Applied(old(filesystem.fs), op)
    {
      hide SH.Inv, Took, Control, Data, Ftp, C.Post, S.Http, StoreHistory.Applied, H.BodyResponse;
      ghost var s := View();
      BodyTaken(s, env, file);
      op := BodyReceived(file, true);
      TookInv(s, env, S.Body(file), View(), op);
    }

    method OnBodyFailed(ghost env: S.Env) returns (ghost op: S.StoreOp)
      requires Valid() && inputs != [] && inputs[0].BodyRead?
      requires env.ftp.files == filesystem.fs
      modifies this, filesystem
      ensures Valid() && Took(old(View()), env, S.BodyFailing, View(), op)
      ensures filesystem.fs == StoreHistory.Applied(old(filesystem.fs), op)
    {
      hide SH.Inv, Took, Control, Data, Ftp, C.Post, S.Http, StoreHistory.Applied, H.BodyResponse;
      ghost var s := View();
      BodyFailureTaken(s, env);
      op := BodyReceived("", false);
      TookInv(s, env, S.BodyFailing, View(), op);
    }

    /** The packet is one the handlers can take. */
    ghost predicate Handles(packet: string)
      reads this`loggedInUser, this`lastUsername, this`lastFtpCommand, this`currentWorkingDir, this`ftpDataAcceptorOpen
    {
      if S.IsHttpPacket(packet) then
        HttpParser.Defined(packet) && H.RequestDefined(authenticate, HttpParser.Parse(packet))
      else
        FtpParser.Defined(packet) &&
        (FtpParser.Parse(packet).valid ==> F.RequestDefined(Ftp(), FtpParser.Parse(packet)))
    }

    /** A line has been read, with the rest of the head behind it if it starts an HTTP request. */
    method HandleLine(packet: string, endpoint: Option<F.Endpoint>, openAfterFailure: bool)
      returns (ghost env: S.Env, ghost op: S.StoreOp)
      requires Numbered() && inputs != [] && Handles(packet)
      modifies this, filesystem
      ensures Numbered() && S.PacketDefined(old(View()), env, packet)
      ensures env.ftp.users == userDatabase.users && env.ftp.files == old(filesystem.fs)
      ensures env.authenticate == authenticate
      ensures MemoryFs.IsListing(old(filesystem.fs), env.ftp.listing)
      ensures env.ftp.endpoint == endpoint && env.ftp.openAfterFailure == openAfterFailure
      ensures filesystem.fs == StoreHistory.Applied(old(filesystem.fs), op)
      ensures (View(), op) == S.LineReceived(old(View()), env, packet)
    {
      hide HttpParser.Defined, HttpParser.Parse, H.RequestDefined, FtpParser.Defined, FtpParser.Parse, F.RequestDefined,
        S.IsHttpPacket, S.HttpRequest, S.FtpLine, Control, Data, Ftp, MemoryFs.IsListing, StoreHistory.Applied;
      ghost var listing;
      inputs := inputs[1..];
      if S.IsHttpPacket(packet) {
        listing, op := HttpLineArrived(packet, endpoint, openAfterFailure);
      } else {
        listing, op := FtpLineArrived(packet, endpoint, openAfterFailure);
      }
      env := S.Env(F.Env(userDatabase.users, old(filesystem.fs), listing, endpoint, openAfterFailure), authenticate);
    }

    method OnLine(packet: string, endpoint: Option<F.Endpoint>, openAfterFailure: bool)
      returns (ghost env: S.Env, ghost op: S.StoreOp)
      requires Valid() && inputs != [] && inputs[0].LineRead? && Handles(packet)
      modifies this, filesystem
      ensures Valid() && Took(old(View()), env, S.Line(packet), View(), op)
      ensures env.ftp.users == userDatabase.users && env.ftp.files == old(filesystem.fs)
      ensures env.authenticate == authenticate
      ensures MemoryFs.IsListing(old(filesystem.fs), env.ftp.listing)
      ensures filesystem.fs == StoreHistory.Applied(old(filesystem.fs), op)
    {
      hide SH.Inv, Took, Handles, Control, Data, Ftp, S.LineReceived, S.PacketDefined, MemoryFs.IsListing,
        StoreHistory.Applied;
      ghost var s := View();
      env, op := HandleLine(packet, endpoint, openAfterFailure);
      LineTaken(s, env, packet);
      TookInv(s, env, S.Line(packet), View(), op);
    }
  }
}
