/** What every run of a session keeps about its histories of requests, commands and replies. */
module SessionHistories {
  import opened Wrappers
  import opened Messages
  import opened SessionModel
  import opened SessionInvariants
  import C = ControlPump
  import D = DataPump
  import Decimal
  import F = FtpCommands
  import FtpParser
  import H = HttpHandlers
  import HttpParser
  import HttpResponse
  import Up = Upload

  // ---------------------------------------------------------------- HTTP requests and their answers

  function FinalCount(history: seq<Message>): nat {
    if history == [] then 0
    else FinalCount(history[..|history| - 1]) + if IsFinal(history[|history| - 1].tag) then 1 else 0
  }

  /** An HTTP message answers the request whose number is the count of final answers before it. */
  predicate Fits(m: Message, finals: nat, requests: nat) {
    IsHttp(m.tag) ==>
      && m.tag.request == finals < requests
      && m.text == HttpResponse.Serialized(m.tag.response)
      && HttpResponse.SelfDelimiting(m.tag.response)
      && (m.tag.response.code == 100 <==> m.tag.Interim?)
  }

  /**
   The n-th final response answers the n-th request, and an interim one belongs to the request
   whose final response comes next; no request gets two.
   */
  ghost predicate Numbered(history: seq<Message>, requests: nat) {
    && (forall k :: 0 <= k < |history| ==> Fits(history[k], FinalCount(history[..k]), requests))
    && (forall j, k :: 0 <= j < k < |history| && history[j].tag.Interim? && history[k].tag.Interim? ==>
          history[j].tag.request < history[k].tag.request)
  }

  predicate BodyOutstanding(s: Session) {
    s.inputs != [] && s.inputs[0].BodyRead?
  }

  ghost predicate Answers(s: Session) {
    && Numbered(s.ctl.history, |s.requests|)
    && FinalCount(s.ctl.history) + (if BodyOutstanding(s) then 1 else 0) == |s.requests|
    && (forall n :: n in s.bodies ==> n < FinalCount(s.ctl.history))
  }

  lemma FinalCountAppend(history: seq<Message>, m: Message)
    ensures FinalCount(history + [m]) == FinalCount(history) + if IsFinal(m.tag) then 1 else 0
  {
    assert (history + [m])[..|history|] == history;
  }

  lemma NumberedAppend(history: seq<Message>, m: Option<Message>, before: nat, after: nat)
    requires Numbered(history, before) && before <= after
    requires m.Some? ==> Fits(m.value, FinalCount(history), after)
    requires m.Some? && m.value.tag.Interim? ==> m.value.tag.request == before
    ensures Numbered(Appended(history, m), after)
  {
    hide FinalCount, HttpResponse.Serialized, HttpResponse.SelfDelimiting;
    var longer := Appended(history, m);
    forall k | 0 <= k < |longer| ensures Fits(longer[k], FinalCount(longer[..k]), after) {
      assert longer[..k] == history[..k];
      if k < |history| {
        assert longer[k] == history[k];
      } else {
        assert history[..k] == history;
      }
    }
    forall j, k | 0 <= j < k < |longer| && longer[j].tag.Interim? && longer[k].tag.Interim?
      ensures longer[j].tag.request < longer[k].tag.request
    {
      assert longer[j] == history[j];
      assert Fits(history[j], FinalCount(history[..j]), before);
    }
  }

  lemma HttpMessageFits(s: Session, env: Env, r: HttpParser.Request)
    requires H.RequestDefined(env.authenticate, r)
    ensures var m := HttpMessage(s, env, r);
            var t := HttpRequest(s, env, r).0;
            && (m.Some? ==> Fits(m.value, |s.requests|, |s.requests| + 1) && IsHttp(m.value.tag))
            && (m.Some? && m.value.tag.Interim? ==> m.value.tag.request == |s.requests|)
            && |t.requests| == |s.requests| + 1
            && (s.inputs == [] ==> (BodyOutstanding(t) <==> m.None? || !IsFinal(m.value.tag)))
  {
    hide H.RequestDefined, H.Authorized, H.HandleGet, HttpResponse.Serialized, HttpResponse.SelfDelimiting, C.Post,
      HttpResponse.Challenge, HttpResponse.OfStatus;
    H.ResponsesSelfDelimiting(env.ftp.users, env.ftp.files, env.ftp.listing, env.authenticate, r);
    H.BodyResponseSelfDelimiting(env.ftp.files, "", true);
    H.FinalCodes(env.ftp.users, env.ftp.files, env.ftp.listing, env.authenticate, r);
    H.BodyCodes(env.ftp.files, "", true);
  }

  lemma FtpMessageFits(s: Session, env: Env, r: FtpParser.Request)
    requires r.valid ==> F.RequestDefined(s.ftp, r)
    ensures !IsHttp(FtpMessage(s, env, r).tag)
    ensures FtpLine(s, env, r).0.requests == s.requests
    ensures s.inputs == [] ==> !BodyOutstanding(FtpLine(s, env, r).0)
  {
    hide F.Handle, F.RequestDefined, C.Post;
  }

  /** What a line does to the count of requests, and how its message fits in. */
  lemma LineAnswers(s: Session, env: Env, packet: string)
    requires PacketDefined(s, env, packet) && |s.inputs| == 1
    ensures var m := LineMessage(s, env, packet);
            var t := LineReceived(s, env, packet).0;
            && (m.Some? ==> Fits(m.value, |s.requests|, |t.requests|))
            && (m.Some? && m.value.tag.Interim? ==> m.value.tag.request == |s.requests|)
            && |s.requests| <= |t.requests|
            && |s.requests| + (if m.Some? && IsFinal(m.value.tag) then 1 else 0)
               + (if BodyOutstanding(t) then 1 else 0) == |t.requests|
  {
    hide F.RequestDefined, H.RequestDefined, HttpParser.Defined, HttpParser.Parse, FtpParser.Parse, FtpLine,
      HttpRequest, IsHttpPacket, FtpMessage, HttpMessage, HttpResponse.Serialized, HttpResponse.SelfDelimiting;
    var t := s.(inputs := s.inputs[1..]);
    if IsHttpPacket(packet) {
      HttpMessageFits(t, env, HttpParser.Parse(packet));
      SameHttpMessage(s, t, env, HttpParser.Parse(packet));
    } else {
      FtpMessageFits(t, env, FtpParser.Parse(packet));
      SameFtpMessage(s, t, env, FtpParser.Parse(packet));
    }
  }

  lemma BodyFits(s: Session, env: Env, ok: bool)
    requires s.inputs != [] && s.inputs[0].BodyRead? && s.requests != []
    ensures Fits(BodyMessage(s, env, ok), |s.requests| - 1, |s.requests|)
    ensures BodyMessage(s, env, ok).tag.Answer?
  {
    hide HttpResponse.Serialized, HttpResponse.SelfDelimiting, H.BodyResponse;
    H.BodyResponseSelfDelimiting(env.ftp.files, s.inputs[0].path, ok);
    H.BodyCodes(env.ftp.files, s.inputs[0].path, ok);
  }

  lemma OtherRequests(s: Session, env: Env, e: Event)
    requires Defined(s) && Enabled(s, env, e) && Reading(s) && !e.Line? && !e.Body? && !e.BodyFailing?
    ensures var t := Step(s, env, e).0;
            t.requests == s.requests && t.bodies == s.bodies && BodyOutstanding(t) == BodyOutstanding(s)
  {
    hide PacketDefined, LineReceived, BodyReceived, C.Next, C.Inv, D.Inv, C.Post, D.RunTask, D.Next, D.Close, D.Accept,
      Refused, Up.Next, Up.Enabled, Reply, BodyMatches;
  }

  lemma OtherMessage(s: Session, env: Env, e: Event)
    requires Defined(s) && Enabled(s, env, e) && !e.Line? && !e.Body? && !e.BodyFailing?
    ensures Posted(s, env, e).Some? ==> !IsHttp(Posted(s, env, e).value.tag)
  {
    hide PacketDefined, LineMessage, BodyMessage, C.Inv, D.Inv, Up.Enabled, D.Enabled, C.Enabled, Reply;
  }

  lemma BodyRequests(s: Session, env: Env, e: Event)
    requires Defined(s) && Enabled(s, env, e) && Reading(s) && (e.Body? || e.BodyFailing?)
    ensures var t := Step(s, env, e).0;
            && t.requests == s.requests && s.requests != []
            && t.bodies == (if e.Body? then s.bodies[|s.requests| - 1 := e.file] else s.bodies)
            && BodyOutstanding(s) && !BodyOutstanding(t)
  {
    hide H.BodyResponse, Http, C.Inv, D.Inv, C.Post, Refused, BodyMatches;
  }

  lemma StepRequests(s: Session, env: Env, e: Event)
    requires Defined(s) && Enabled(s, env, e) && Reading(s)
    ensures var t := Step(s, env, e).0;
            && (!e.Line? ==> t.requests == s.requests)
            && (!e.Body? ==> t.bodies == s.bodies)
            && (e.Body? ==> s.requests != [] && t.bodies == s.bodies[|s.requests| - 1 := e.file])
            && (e.Body? || e.BodyFailing? ==> BodyOutstanding(s) && !BodyOutstanding(t))
            && (!e.Line? && !e.Body? && !e.BodyFailing? ==>
                  BodyOutstanding(t) == BodyOutstanding(s)
                  && (Posted(s, env, e).Some? ==> !IsHttp(Posted(s, env, e).value.tag)))
  {
    hide Step, Posted, Reading, Defined, BodyOutstanding, C.Enabled, D.Enabled, Up.Enabled, PacketDefined, LineReceived;
    if e.Line? {
      LineIsStep(s, env, e.packet);
      LineFrames(s, env, e.packet);
    } else if e.Body? || e.BodyFailing? {
      BodyRequests(s, env, e);
    } else {
      OtherRequests(s, env, e);
      OtherMessage(s, env, e);
    }
  }

  lemma StepKeepsAnswers(s: Session, env: Env, e: Event)
    requires Defined(s) && Enabled(s, env, e) && Reading(s) && Answers(s)
    ensures Answers(Step(s, env, e).0)
  {
    hide Step, PacketDefined, LineReceived, LineMessage, BodyMessage, Numbered, FinalCount, Fits, C.Inv, D.Inv,
      C.Enabled, D.Enabled, Up.Enabled, Refused, BodyMatches;
    var t := Step(s, env, e).0;
    var m := Posted(s, env, e);
    StepHistory(s, env, e);
    StepRequests(s, env, e);
    if e.Line? {
      LineAnswers(s, env, e.packet);
      LineIsStep(s, env, e.packet);
    } else if e.Body? {
      BodyFits(s, env, true);
    } else if e.BodyFailing? {
      BodyFits(s, env, false);
    } else if m.Some? {
      NotHttpFits(m.value, FinalCount(s.ctl.history), |s.requests|);
    }
    NumberedAppend(s.ctl.history, m, |s.requests|, |t.requests|);
    if m.Some? {
      FinalCountAppend(s.ctl.history, m.value);
    }
  }

  lemma NotHttpFits(m: Message, finals: nat, requests: nat)
    requires !IsHttp(m.tag)
    ensures Fits(m, finals, requests)
  {
  }

  // ---------------------------------------------------------------- FTP commands

  ghost predicate Commands(s: Session) {
    F.Agrees(s.ftp, s.log) && F.PassAfterUser(s.log)
  }

  lemma FtpCommands(s: Session, env: Env, r: FtpParser.Request)
    requires r.valid ==> F.RequestDefined(s.ftp, r)
    requires Commands(s)
    ensures Commands(FtpLine(s, env, r).0)
  {
    hide F.Handle, F.RequestDefined, F.Agrees, F.PassAfterUser, C.Post, Reply;
    if r.valid {
      F.HandleAgrees(s.ftp, env.ftp, r, s.log);
    }
  }

  lemma HttpLeavesFtp(s: Session, env: Env, r: HttpParser.Request)
    requires H.RequestDefined(env.authenticate, r)
    ensures HttpRequest(s, env, r).0.ftp == s.ftp && HttpRequest(s, env, r).0.log == s.log
    ensures HttpRequest(s, env, r).0.origins == s.origins && HttpRequest(s, env, r).0.accepts == s.accepts
  {
    hide H.RequestDefined, H.Handle, Http, C.Post;
  }

  lemma StepKeepsCommands(s: Session, env: Env, e: Event)
    requires Defined(s) && Enabled(s, env, e) && Commands(s)
    ensures Commands(Step(s, env, e).0)
  {
    hide Step, FtpLine, HttpRequest, C.Inv, D.Inv, C.Enabled, D.Enabled, Up.Enabled, HttpParser.Parse,
      HttpParser.Defined, FtpParser.Parse, F.RequestDefined, H.RequestDefined, F.PassAfterUser;
    if e.Line? {
      LineIsStep(s, env, e.packet);
      var t := s.(inputs := s.inputs[1..]);
      if IsHttpPacket(e.packet) {
        HttpLeavesFtp(t, env, HttpParser.Parse(e.packet));
      } else {
        FtpCommands(t, env, FtpParser.Parse(e.packet));
      }
    } else {
      StepLeavesCommands(s, env, e);
    }
  }

  // ---------------------------------------------------------------- where transfers come from

  /** Command o of the history is an accepted command of this kind, issued while someone was logged in. */
  ghost predicate Issued(log: seq<F.Logged>, o: nat, code: nat) {
    o < |log| && log[o].code == code && F.LoggedInBy(log[..o]).Some?
  }

  /** Command o is a STOR for this path, resolved against the working directory of that moment. */
  ghost predicate IssuedStor(log: seq<F.Logged>, o: nat, path: string) {
    && Issued(log, o, 150)
    && log[o].command == FtpParser.Stor && |log[o].tokens| == 2
    && path == F.DirText(F.DirsBy(log[..o])) + log[o].tokens[1]
  }

  ghost predicate IssuedDownload(log: seq<F.Logged>, o: nat) {
    Issued(log, o, 150) && (log[o].command == FtpParser.List || log[o].command == FtpParser.Retr)
  }

  /** Each transfer goes back to a command of its own. */
  ghost predicate Origins(s: Session) {
    && (forall i, j :: 0 <= i < j < |s.origins| ==> s.origins[i] < s.origins[j])
    && (forall i :: 0 <= i < |s.origins| ==> s.origins[i] < |s.log|)
    && (forall t :: t in s.accepts && t < |s.origins| ==>
          match s.accepts[t]
          case ForUpload(path) => IssuedStor(s.log, s.origins[t], path)
          case ForDownload(_) => IssuedDownload(s.log, s.origins[t]))
    && (forall t :: t in s.uploads && t < |s.origins| ==> IssuedStor(s.log, s.origins[t], s.uploads[t].path))
    && (forall i :: 0 <= i < |s.pump.accepted| && s.pump.accepted[i].id < |s.origins| ==>
          IssuedDownload(s.log, s.origins[s.pump.accepted[i].id]))
  }

  lemma LogGrows(log: seq<F.Logged>, l: F.Logged, o: nat)
    requires o < |log|
    ensures (log + [l])[..o] == log[..o] && (log + [l])[o] == log[o]
  {
  }

  /** A line adds at most one command and at most one transfer, which goes back to that command. */
  ghost predicate LineOrigin(s: Session, t: Session) {
    || (t.log == s.log && t.origins == s.origins && t.accepts == s.accepts)
    || (&& |t.log| == |s.log| + 1 && t.log[..|s.log|] == s.log
        && ((t.origins == s.origins && t.accepts == s.accepts) || OriginAdded(s, t)))
  }

  ghost predicate OriginAdded(s: Session, t: Session) {
    && t.origins == s.origins + [|s.log|]
    && |s.origins| in t.accepts && t.accepts == s.accepts[|s.origins| := t.accepts[|s.origins|]]
    && match t.accepts[|s.origins|]
       case ForUpload(path) => IssuedStor(t.log, |s.log|, path)
       case ForDownload(_) => IssuedDownload(t.log, |s.log|)
  }

  lemma FtpOrigin(s: Session, env: Env, r: FtpParser.Request)
    requires r.valid ==> F.RequestDefined(s.ftp, r)
    requires Commands(s)
    ensures LineOrigin(s, FtpLine(s, env, r).0)
  {
    hide F.Handle, F.RequestDefined, F.PassAfterUser, C.Post, Reply, F.LoggedInBy, F.DirsBy, F.DirText, F.NameBy;
    if r.valid {
      F.EffectsNeedLogin(s.ftp, env.ftp, r);
      var l := F.LogOf(F.Handle(s.ftp, env.ftp, r), r);
      assert (s.log + [l])[..|s.log|] == s.log;
    }
  }

  lemma IssuedGrows(log: seq<F.Logged>, l: F.Logged, o: nat)
    requires o < |log|
    ensures forall path :: IssuedStor(log, o, path) <==> IssuedStor(log + [l], o, path)
    ensures IssuedDownload(log, o) <==> IssuedDownload(log + [l], o)
  {
    hide F.LoggedInBy, F.DirsBy, F.DirText;
    LogGrows(log, l, o);
  }

  lemma OriginsAfterLine(s: Session, t: Session)
    requires Stages(s) && Origins(s) && LineFrame(s, t) && LineOrigin(s, t)
    ensures Origins(t)
  {
    hide IssuedStor, IssuedDownload;
    if |t.log| > |s.log| {
      var l := t.log[|s.log|];
      assert t.log == s.log + [l];
      forall o: nat, path: string | o < |s.log| && IssuedStor(s.log, o, path)
        ensures IssuedStor(t.log, o, path)
      {
        IssuedGrows(s.log, l, o);
      }
      forall o: nat | o < |s.log| && IssuedDownload(s.log, o) ensures IssuedDownload(t.log, o) {
        IssuedGrows(s.log, l, o);
      }
      if |t.origins| > |s.origins| {
        OriginsAfterTransfer(s, t);
      }
    }
  }

  lemma OriginsAfterTransfer(s: Session, t: Session)
    requires Stages(s) && Origins(s) && LineFrame(s, t) && OriginAdded(s, t)
    requires |t.log| == |s.log| + 1
    requires forall o: nat, path: string :: o < |s.log| && IssuedStor(s.log, o, path) ==> IssuedStor(t.log, o, path)
    requires forall o: nat :: o < |s.log| && IssuedDownload(s.log, o) ==> IssuedDownload(t.log, o)
    ensures Origins(t)
  {
    hide IssuedStor, IssuedDownload;
    var n := |s.origins|;
    assert forall i :: 0 <= i < n ==> t.origins[i] == s.origins[i];
    assert t.origins[n] == |s.log|;
    forall x | x in t.accepts && x < |t.origins|
      ensures match t.accepts[x]
              case ForUpload(path) => IssuedStor(t.log, t.origins[x], path)
              case ForDownload(_) => IssuedDownload(t.log, t.origins[x])
    {
      if x < n {
        assert x in s.accepts && t.accepts[x] == s.accepts[x];
      }
    }
  }

  lemma OriginsAfterAccept(s: Session, id: nat)
    requires Stages(s) && Origins(s) && id in s.accepts
    ensures Origins(Accepted(s, id))
  {
    hide IssuedStor, IssuedDownload;
  }

  lemma OriginsKept(s: Session, t: Session)
    requires Origins(s) && t.log == s.log && t.origins == s.origins
    requires forall id :: id in t.accepts ==> id in s.accepts && t.accepts[id] == s.accepts[id]
    requires t.uploads.Keys == s.uploads.Keys
    requires forall id :: id in t.uploads ==> t.uploads[id].path == s.uploads[id].path
    requires t.pump.accepted == s.pump.accepted
    ensures Origins(t)
  {
    hide IssuedStor, IssuedDownload;
    assert forall id :: id in t.uploads <==> id in s.uploads.Keys;
  }

  lemma StepKeepsOrigins(s: Session, env: Env, e: Event)
    requires Defined(s) && Enabled(s, env, e) && Commands(s) && Stages(s) && Origins(s)
    ensures Origins(Step(s, env, e).0)
  {
    hide Step, FtpLine, HttpRequest, C.Inv, D.Inv, C.Enabled, D.Enabled, Up.Enabled, HttpParser.Parse,
      HttpParser.Defined, FtpParser.Parse, F.RequestDefined, H.RequestDefined, Stages, Origins, Accepted, LineOrigin,
      LineFrame;
    if e.Line? {
      LineIsStep(s, env, e.packet);
      LineFrames(s, env, e.packet);
      LineOrigins(s, env, e.packet);
      OriginsAfterLine(s, LineReceived(s, env, e.packet).0);
    } else if e.Accepting? {
      OriginsAfterAccept(s, e.id);
      AcceptIsStep(s, env, e.id);
    } else {
      StepLeavesCommands(s, env, e);
      StepLeavesTransfers(s, env, e);
      OriginsKept(s, Step(s, env, e).0);
    }
  }

  lemma LineOrigins(s: Session, env: Env, packet: string)
    requires PacketDefined(s, env, packet) && s.inputs != [] && Commands(s)
    ensures LineOrigin(s, LineReceived(s, env, packet).0)
  {
    hide F.RequestDefined, H.RequestDefined, HttpParser.Defined, HttpParser.Parse, FtpParser.Parse, FtpLine,
      HttpRequest, IsHttpPacket, F.Agrees, F.PassAfterUser, IssuedStor, IssuedDownload;
    var t := s.(inputs := s.inputs[1..]);
    if IsHttpPacket(packet) {
      HttpLeavesFtp(t, env, HttpParser.Parse(packet));
    } else {
      FtpOrigin(t, env, FtpParser.Parse(packet));
    }
  }

  // ---------------------------------------------------------------- replies of transfers

  function Count(history: seq<Message>, tag: Tag): nat {
    if history == [] then 0
    else Count(history[..|history| - 1], tag) + if history[|history| - 1].tag == tag then 1 else 0
  }

  /** How many replies have ended the transfer. */
  function EndCount(history: seq<Message>, t: nat): nat {
    Count(history, Finished(t)) + Count(history, Aborted(t))
  }

  /** The transfer was announced and has not been answered. */
  predicate UnderWay(s: Session, t: nat) {
    || t in s.accepts
    || (t in s.uploads && s.uploads[t].phase != Up.Saved)
    || (IsDownload(s.pump, t) && t !in s.pump.completed)
  }

  /**
   Every transfer is announced by exactly one 150 and ended by exactly one later reply, unless
   it is still under way; and the texts begin with the codes their tags stand for.
   */
  ghost predicate Replies(s: Session) {
    && (forall t: nat :: Count(s.ctl.history, Opening(t)) == if t < |s.origins| then 1 else 0)
    && (forall t: nat :: EndCount(s.ctl.history, t) == if t < |s.origins| && !UnderWay(s, t) then 1 else 0)
    && (forall k, t: nat :: 0 <= k < |s.ctl.history| && Ends(s.ctl.history[k].tag, t) ==>
          Count(s.ctl.history[..k], Opening(t)) == 1)
    && (forall k :: 0 <= k < |s.ctl.history| ==> Spelled(s.ctl.history[k]))
  }

  lemma CountAppend(history: seq<Message>, m: Option<Message>, tag: Tag)
    ensures Count(Appended(history, m), tag) == Count(history, tag) + if m.Some? && m.value.tag == tag then 1 else 0
  {
    if m.Some? {
      assert (history + [m.value])[..|history|] == history;
    }
  }

  /** What a step does to the transfers and their replies. */
  ghost predicate ReplyStep(s: Session, t: Session, m: Option<Message>) {
    && t.ctl.history == Appended(s.ctl.history, m)
    && |t.origins| == |s.origins| + (if m.Some? && m.value.tag == Opening(|s.origins|) then 1 else 0)
    && (m.Some? && m.value.tag.Opening? ==> m.value.tag.transfer == |s.origins|)
    && (forall x: nat :: m.Some? && Ends(m.value.tag, x) ==> x < |s.origins| && UnderWay(s, x))
    && (forall x: nat :: UnderWay(t, x) <==>
          (UnderWay(s, x) && !(m.Some? && Ends(m.value.tag, x)))
          || (m.Some? && m.value.tag == Opening(|s.origins|) && x == |s.origins|))
  }

  lemma RepliesAfter(s: Session, t: Session, m: Option<Message>)
    requires Replies(s) && ReplyStep(s, t, m) && (m.Some? ==> Spelled(m.value))
    requires forall x: nat :: UnderWay(s, x) ==> x < |s.origins|
    ensures Replies(t)
  {
    hide Count, UnderWay, Spelled;
    var h, longer := s.ctl.history, t.ctl.history;
    forall x: nat
      ensures Count(longer, Opening(x)) == if x < |t.origins| then 1 else 0
      ensures EndCount(longer, x) == if x < |t.origins| && !UnderWay(t, x) then 1 else 0
    {
      CountAppend(h, m, Opening(x));
      CountAppend(h, m, Finished(x));
      CountAppend(h, m, Aborted(x));
      assert EndCount(longer, x) == EndCount(h, x) + if m.Some? && Ends(m.value.tag, x) then 1 else 0;
    }
    forall k, x: nat | 0 <= k < |longer| && Ends(longer[k].tag, x)
      ensures Count(longer[..k], Opening(x)) == 1
    {
      assert longer[..k] == h[..k];
      if k < |h| {
        assert longer[k] == h[k];
      } else {
        assert h[..k] == h;
      }
    }
  }

  lemma UnderWayIsIssued(s: Session)
    requires Stages(s)
    ensures forall x: nat :: UnderWay(s, x) ==> x < |s.origins|
  {
  }

  lemma LineTag(s: Session, env: Env, packet: string)
    requires PacketDefined(s, env, packet) && s.inputs != []
    ensures var m := LineMessage(s, env, packet);
            var t := LineReceived(s, env, packet).0;
            && (m.Some? ==> !m.value.tag.Finished? && !m.value.tag.Aborted?)
            && (m.Some? && m.value.tag.Opening? ==> m.value.tag.transfer == |s.origins|)
            && |t.origins| == |s.origins| + (if m.Some? && m.value.tag.Opening? then 1 else 0)
  {
    hide F.RequestDefined, H.RequestDefined, HttpParser.Defined, HttpParser.Parse, FtpParser.Parse, FtpLine,
      HttpRequest, IsHttpPacket, FtpMessage, HttpMessage;
    var t := s.(inputs := s.inputs[1..]);
    if IsHttpPacket(packet) {
      HttpTag(t, env, HttpParser.Parse(packet));
      SameHttpMessage(s, t, env, HttpParser.Parse(packet));
    } else {
      FtpTag(t, env, FtpParser.Parse(packet));
      SameFtpMessage(s, t, env, FtpParser.Parse(packet));
    }
  }

  lemma HttpTag(s: Session, env: Env, r: HttpParser.Request)
    requires H.RequestDefined(env.authenticate, r)
    ensures HttpMessage(s, env, r).Some? ==> IsHttp(HttpMessage(s, env, r).value.tag)
    ensures HttpRequest(s, env, r).0.origins == s.origins
  {
    HttpLeavesFtp(s, env, r);
    HttpMessageFits(s, env, r);
  }

  lemma FtpTag(s: Session, env: Env, r: FtpParser.Request)
    requires r.valid ==> F.RequestDefined(s.ftp, r)
    ensures var tag := FtpMessage(s, env, r).tag;
            && (tag == Plain || tag == Opening(|s.origins|))
            && |FtpLine(s, env, r).0.origins| == |s.origins| + (if tag == Plain then 0 else 1)
  {
    hide F.Handle, F.RequestDefined, C.Post;
  }

  lemma LineReplies(s: Session, t: Session, m: Option<Message>)
    requires Stages(s) && LineFrame(s, t) && t.ctl.history == Appended(s.ctl.history, m)
    requires m.Some? ==> !m.value.tag.Finished? && !m.value.tag.Aborted?
    requires m.Some? && m.value.tag.Opening? ==> m.value.tag.transfer == |s.origins|
    requires |t.origins| == |s.origins| + (if m.Some? && m.value.tag.Opening? then 1 else 0)
    ensures ReplyStep(s, t, m)
  {
  }

  /** Popping a terminator answers a download that was under way, once. */
  lemma TerminatorEnds(p: D.Pump)
    requires D.Inv(p) && p.tasks != [] && p.tasks[0].Send? && p.buffer != [] && p.buffer[0].payload.None?
    ensures var x := p.tasks[0].sock; IsDownload(p, x) && x !in p.completed
    ensures D.RunTask(p).completed == p.completed + [p.tasks[0].sock]
    ensures D.RunTask(p).accepted == p.accepted
  {
    hide D.Layout, D.Pending, D.Rest, D.Ahead;
    D.TaskHead(p);
    assert D.Sends(p.tasks)[0] == p.tasks[0].sock == p.accepted[p.served].id;
    assert IsDownload(p, p.accepted[p.served].id);
  }

  /** Nothing of the transfers under way changes, except that the reply ends one of them. */
  lemma ReplyEnds(s: Session, t: Session, m: Option<Message>)
    requires Stages(s)
    requires t.ctl.history == Appended(s.ctl.history, m) && t.origins == s.origins
    requires m.Some? ==> !m.value.tag.Opening?
    requires forall x: nat :: m.Some? && Ends(m.value.tag, x) ==> UnderWay(s, x)
    requires forall x: nat :: UnderWay(t, x) <==> UnderWay(s, x) && !(m.Some? && Ends(m.value.tag, x))
    ensures ReplyStep(s, t, m)
  {
    hide UnderWay, Stages;
    UnderWayIsIssued(s);
  }

  /** What is left of a session when only its control pump and its data pump have moved. */
  ghost predicate SameTransfers(s: Session, t: Session) {
    t.origins == s.origins && t.accepts == s.accepts && t.uploads == s.uploads
  }

  lemma DataTaskIs(s: Session, env: Env)
    requires Defined(s) && s.pump.tasks != []
    requires s.pump.tasks[0].Send? ==> s.pump.buffer != []
    ensures var t := Step(s, env, DataTasking).0;
            var m := Posted(s, env, DataTasking);
            && SameTransfers(s, t) && t.pump == D.RunTask(s.pump)
            && m == if s.pump.tasks[0].Send? && s.pump.buffer[0].payload.None?
                    then Some(Reply(226, "Done", Finished(s.pump.tasks[0].sock))) else None
  {
    hide C.Inv, D.Inv, C.Post, PacketDefined, Reply, D.RunTask;
  }

  lemma PlainTaskKeeps(p: D.Pump)
    requires D.Inv(p) && p.tasks != []
    requires p.tasks[0].Send? ==> p.buffer != [] && p.buffer[0].payload.Some?
    ensures D.RunTask(p).completed == p.completed && D.RunTask(p).accepted == p.accepted
  {
    hide D.Inv;
  }

  lemma DataTaskReplies(s: Session, env: Env)
    requires Defined(s) && Stages(s) && s.pump.tasks != []
    ensures ReplyStep(s, Step(s, env, DataTasking).0, Posted(s, env, DataTasking))
  {
    hide C.Inv, D.Inv, Step, Posted, Stages, PacketDefined, D.RunTask, IsDownload, ReplyStep;
    StepHistory(s, env, DataTasking);
    var p := s.pump;
    if p.tasks[0].Send? {
      SendHasFront(p);
    }
    DataTaskIs(s, env);
    if p.tasks[0].Send? && p.buffer[0].payload.None? {
      TerminatorEnds(p);
      SameDownloads(p, D.RunTask(p));
      OnlyDownload(s, p.tasks[0].sock);
    } else {
      PlainTaskKeeps(p);
      SameDownloads(p, D.RunTask(p));
    }
    ReplyEnds(s, Step(s, env, DataTasking).0, Posted(s, env, DataTasking));
  }

  lemma SameDownloads(p: D.Pump, q: D.Pump)
    requires q.accepted == p.accepted
    ensures forall x :: IsDownload(p, x) <==> IsDownload(q, x)
  {
  }

  lemma OnlyDownload(s: Session, x: nat)
    requires Stages(s) && IsDownload(s.pump, x)
    ensures x !in s.accepts && x !in s.uploads
  {
  }

  lemma DownloadsAfterAccept(p: D.Pump, d: D.Download)
    ensures forall x :: IsDownload(D.Accept(p, d), x) <==> IsDownload(p, x) || x == d.id
    ensures D.Accept(p, d).completed == p.completed
  {
    var q := D.Accept(p, d);
    forall x ensures IsDownload(q, x) <==> IsDownload(p, x) || x == d.id {
      if IsDownload(p, x) {
        var i :| 0 <= i < |p.accepted| && p.accepted[i].id == x;
        assert q.accepted[i].id == x;
      }
      assert q.accepted[|p.accepted|].id == d.id;
      if IsDownload(q, x) && x != d.id {
        var i :| 0 <= i < |q.accepted| && q.accepted[i].id == x;
        assert p.accepted[i].id == x;
      }
    }
  }

  lemma AcceptReplies(s: Session, id: nat)
    requires Defined(s) && Stages(s) && id in s.accepts
    ensures ReplyStep(s, Accepted(s, id), None)
  {
    hide C.Inv, D.Inv, IsDownload, ReplyStep, D.Accept;
    var t := Accepted(s, id);
    NotYetCompleted(s.pump);
    if s.accepts[id].ForDownload? {
      DownloadsAfterAccept(s.pump, D.Download(id, s.accepts[id].bytes));
    }
    ReplyEnds(s, t, None);
  }

  /** Only accepted downloads are completed. */
  lemma NotYetCompleted(p: D.Pump)
    requires D.Inv(p)
    ensures forall x :: x in p.completed ==> IsDownload(p, x)
  {
    hide D.Layout, D.Pending, D.Rest, D.Ahead, D.OneActivity;
    forall x | x in p.completed ensures IsDownload(p, x) {
      var i :| 0 <= i < |p.completed| && p.completed[i] == x;
      assert p.accepted[i].id == x;
    }
  }

  lemma AcceptFailedReplies(s: Session, env: Env, id: nat, reason: string)
    requires Defined(s) && Stages(s) && id in s.accepts
    ensures var e := AcceptFailing(id, reason); ReplyStep(s, Step(s, env, e).0, Posted(s, env, e))
  {
    hide C.Inv, D.Inv, C.Post, PacketDefined, ReplyStep, IsDownload;
    StepHistory(s, env, AcceptFailing(id, reason));
    var t := Step(s, env, AcceptFailing(id, reason)).0;
    assert t.accepts == s.accepts - {id};
    ReplyEnds(s, t, Posted(s, env, AcceptFailing(id, reason)));
  }

  lemma SavingIs(s: Session, env: Env, id: nat)
    requires Defined(s) && Enabled(s, env, Saving(id))
    ensures var t := Step(s, env, Saving(id)).0;
            var m := Posted(s, env, Saving(id));
            && t.accepts == s.accepts && t.origins == s.origins
            && t.uploads == s.uploads[id := Up.Save(s.uploads[id])]
            && t.pump.accepted == s.pump.accepted && t.pump.completed == s.pump.completed
            && m.Some? && m.value.tag == Finished(id)
  {
    hide C.Inv, D.Inv, C.Post, PacketDefined;
  }

  lemma SavingReplies(s: Session, env: Env, id: nat)
    requires Defined(s) && Stages(s) && Enabled(s, env, Saving(id))
    ensures ReplyStep(s, Step(s, env, Saving(id)).0, Posted(s, env, Saving(id)))
  {
    hide Step, Posted, C.Inv, D.Inv, PacketDefined, ReplyStep, IsDownload;
    StepHistory(s, env, Saving(id));
    SavingIs(s, env, id);
    var t := Step(s, env, Saving(id)).0;
    SameDownloads(s.pump, t.pump);
    ReplyEnds(s, t, Posted(s, env, Saving(id)));
  }

  lemma OtherStepIs(s: Session, env: Env, e: Event)
    requires Defined(s) && Enabled(s, env, e)
    requires !e.Line? && !e.Accepting? && !e.DataTasking? && !e.AcceptFailing? && !e.Saving?
    ensures var t := Step(s, env, e).0;
            var m := Posted(s, env, e);
            && (m.Some? ==> IsHttp(m.value.tag))
            && t.origins == s.origins && t.accepts == s.accepts
            && t.uploads.Keys == s.uploads.Keys
            && (forall x :: x in s.uploads.Keys ==>
                  (t.uploads[x].phase == Up.Saved <==> s.uploads[x].phase == Up.Saved))
            && t.pump.accepted == s.pump.accepted && t.pump.completed == s.pump.completed
  {
    hide C.Inv, D.Inv, C.Post, C.Next, D.Next, PacketDefined, H.BodyResponse, HttpResponse.Serialized, C.Enabled,
      D.Enabled, Reply;
    if e.Data? {
      PumpStepAccepted(s.pump, e.step);
      PumpStepCompleted(s.pump, e.step);
    }
  }

  lemma OtherReplies(s: Session, env: Env, e: Event)
    requires Defined(s) && Enabled(s, env, e) && Stages(s)
    requires !e.Line? && !e.Accepting? && !e.DataTasking? && !e.AcceptFailing? && !e.Saving?
    ensures ReplyStep(s, Step(s, env, e).0, Posted(s, env, e))
  {
    hide Step, Posted, Enabled, C.Inv, D.Inv, ReplyStep, IsDownload;
    StepHistory(s, env, e);
    OtherStepIs(s, env, e);
    var t := Step(s, env, e).0;
    SameDownloads(s.pump, t.pump);
    assert forall x :: x in s.uploads <==> x in s.uploads.Keys;
    assert forall x :: x in t.uploads <==> x in t.uploads.Keys;
    ReplyEnds(s, t, Posted(s, env, e));
  }

  lemma PumpStepCompleted(p: D.Pump, ev: D.Event)
    requires D.Inv(p) && D.Enabled(p, ev) && (ev.Transferring? || ev.Completing?)
    ensures D.Next(p, ev).completed == p.completed
  {
  }

  lemma FtpSpelled(s: Session, env: Env, r: FtpParser.Request)
    requires r.valid ==> F.RequestDefined(s.ftp, r)
    ensures Spelled(FtpMessage(s, env, r))
  {
    hide F.Handle, F.RequestDefined, Spelled, Reply;
    if r.valid {
      var o := F.Handle(s.ftp, env.ftp, r);
      F.EffectsNeedLogin(s.ftp, env.ftp, r);
      F.NoEndingCodes(s.ftp, env.ftp, r);
      ReplySpelled(o.code, o.text,
        if o.effect.StartDownload? || o.effect.StartUpload? then Opening(|s.origins|) else Plain);
    } else {
      ReplySpelled(500, "", Plain);
    }
  }

  lemma LineSpelled(s: Session, env: Env, packet: string)
    requires PacketDefined(s, env, packet)
    ensures LineMessage(s, env, packet).Some? ==> Spelled(LineMessage(s, env, packet).value)
  {
    hide F.RequestDefined, H.RequestDefined, HttpParser.Defined, HttpParser.Parse, FtpParser.Parse, IsHttpPacket,
      FtpMessage, HttpMessage, Spelled, HttpResponse.Serialized;
    if IsHttpPacket(packet) {
      var r := HttpParser.Parse(packet);
      HttpMessageFits(s, env, r);
      if HttpMessage(s, env, r).Some? {
        HttpSpelled(HttpMessage(s, env, r).value);
      }
    } else {
      FtpSpelled(s, env, FtpParser.Parse(packet));
    }
  }

  lemma StepSpelled(s: Session, env: Env, e: Event)
    requires Defined(s) && Enabled(s, env, e)
    ensures Posted(s, env, e).Some? ==> Spelled(Posted(s, env, e).value)
  {
    hide C.Inv, D.Inv, PacketDefined, LineMessage, Reply, Spelled, C.Enabled, D.Enabled, Up.Enabled, H.BodyResponse,
      HttpResponse.Serialized;
    if e.Line? {
      LineSpelled(s, env, e.packet);
    } else if e.Body? {
      HttpSpelled(BodyMessage(s, env, true));
    } else if e.BodyFailing? {
      HttpSpelled(BodyMessage(s, env, false));
    } else if e.AcceptFailing? {
      ReplySpelled(426, "Data transfer aborted: " + e.reason, Aborted(e.id));
    } else if e.DataTasking? {
      if Posted(s, env, e).Some? {
        ReplySpelled(226, "Done", Posted(s, env, e).value.tag);
      }
    } else if e.Saving? {
      ReplySpelled(226, "File saved", Finished(e.id));
      ReplySpelled(450, "File not saved", Finished(e.id));
    }
  }

  lemma StepKeepsReplies(s: Session, env: Env, e: Event)
    requires Defined(s) && Enabled(s, env, e) && Stages(s) && Replies(s)
    ensures Replies(Step(s, env, e).0)
  {
    hide Step, Posted, C.Inv, D.Inv, C.Enabled, D.Enabled, Up.Enabled, PacketDefined, Stages, Replies, ReplyStep,
      LineFrame, LineMessage, LineReceived, UnderWay, Accepted, Spelled;
    UnderWayIsIssued(s);
    StepSpelled(s, env, e);
    StepHistory(s, env, e);
    if e.Line? {
      LineIsStep(s, env, e.packet);
      LineIsPosted(s, env, e.packet);
      LineFrames(s, env, e.packet);
      LineTag(s, env, e.packet);
      LineReplies(s, Step(s, env, e).0, Posted(s, env, e));
    } else if e.Accepting? {
      AcceptIsStep(s, env, e.id);
      AcceptPostsNothing(s, env, e.id);
      AcceptReplies(s, e.id);
    } else if e.DataTasking? {
      DataTaskReplies(s, env);
    } else if e.AcceptFailing? {
      AcceptFailedReplies(s, env, e.id, e.reason);
    } else if e.Saving? {
      SavingReplies(s, env, e.id);
    } else {
      OtherReplies(s, env, e);
    }
    RepliesAfter(s, Step(s, env, e).0, Posted(s, env, e));
  }

  lemma LineIsPosted(s: Session, env: Env, packet: string)
    requires Defined(s) && Enabled(s, env, Line(packet))
    ensures Posted(s, env, Line(packet)) == LineMessage(s, env, packet)
  {
    hide C.Inv, D.Inv, PacketDefined, LineMessage;
  }

  lemma AcceptPostsNothing(s: Session, env: Env, id: nat)
    requires Defined(s) && Enabled(s, env, Accepting(id))
    ensures Posted(s, env, Accepting(id)) == None
  {
    hide C.Inv, D.Inv, PacketDefined;
  }

  // ---------------------------------------------------------------- reports of delivered downloads

  /** The transfers that were reported as sent by the data pump's 226, in the order of these replies. */
  function Dones(history: seq<Message>): seq<nat> {
    if history == [] then []
    else
      var last := history[|history| - 1];
      Dones(history[..|history| - 1]) + if IsDone(last) then [last.tag.transfer] else []
  }

  /** Exactly the downloads that the data pump has completed were reported, in that order. */
  ghost predicate Reported(s: Session) {
    Dones(s.ctl.history) == s.pump.completed
  }

  lemma DonesAppend(history: seq<Message>, m: Option<Message>)
    ensures Dones(Appended(history, m)) ==
              Dones(history) + if m.Some? && IsDone(m.value) then [m.value.tag.transfer] else []
  {
    if m.Some? {
      assert (history + [m.value])[..|history|] == history;
    }
  }

  lemma SavedIsNotDone(t: nat)
    ensures !IsDone(Reply(226, "File saved", Finished(t))) && !IsDone(Reply(450, "File not saved", Finished(t)))
  {
    hide Decimal.ToString, HasCode;
    assert |Reply(226, "File saved", Finished(t)).text| == |DoneReply(t).text| + 6;
    ReplyHasItsCode(450, "File not saved", Finished(t));
    ReplyHasItsCode(226, "Done", Finished(t));
    assert HasCode(DoneReply(t).text, 226) && !HasCode(Reply(450, "File not saved", Finished(t)).text, 226);
  }

  /** A step completes a download exactly if it posts the report. */
  ghost predicate ReportStep(s: Session, t: Session, m: Option<Message>) {
    t.pump.completed == s.pump.completed + if m.Some? && IsDone(m.value) then [m.value.tag.transfer] else []
  }

  lemma DataTaskReports(s: Session, env: Env)
    requires Defined(s) && s.pump.tasks != []
    ensures ReportStep(s, Step(s, env, DataTasking).0, Posted(s, env, DataTasking))
  {
    hide C.Inv, D.Inv, Step, Posted, PacketDefined, D.RunTask, IsDownload, Reply;
    var p := s.pump;
    if p.tasks[0].Send? {
      SendHasFront(p);
    }
    DataTaskIs(s, env);
    if p.tasks[0].Send? && p.buffer[0].payload.None? {
      TerminatorEnds(p);
    } else {
      PlainTaskKeeps(p);
    }
  }

  lemma SavingReports(s: Session, env: Env, id: nat)
    requires Defined(s) && Enabled(s, env, Saving(id))
    ensures ReportStep(s, Step(s, env, Saving(id)).0, Posted(s, env, Saving(id)))
  {
    hide C.Inv, D.Inv, C.Post, PacketDefined, Reply, IsDone;
    SavedIsNotDone(id);
  }

  lemma LineReports(s: Session, env: Env, packet: string)
    requires Defined(s) && Enabled(s, env, Line(packet))
    ensures ReportStep(s, Step(s, env, Line(packet)).0, Posted(s, env, Line(packet)))
  {
    hide C.Inv, D.Inv, Step, Posted, PacketDefined, LineMessage, LineReceived, Reply;
    LineIsStep(s, env, packet);
    LineIsPosted(s, env, packet);
    LineFrames(s, env, packet);
    LineTag(s, env, packet);
  }

  lemma OtherReports(s: Session, env: Env, e: Event)
    requires Defined(s) && Enabled(s, env, e) && !e.Line? && !e.DataTasking? && !e.Saving?
    ensures ReportStep(s, Step(s, env, e).0, Posted(s, env, e))
  {
    hide C.Inv, D.Inv, C.Post, C.Next, D.Next, C.Enabled, D.Enabled, Up.Enabled, Up.Next, PacketDefined, Reply,
      H.BodyResponse, HttpResponse.Serialized;
    if e.Data? {
      PumpStepCompleted(s.pump, e.step);
    }
  }

  lemma StepKeepsReported(s: Session, env: Env, e: Event)
    requires Defined(s) && Enabled(s, env, e) && Reported(s)
    ensures Reported(Step(s, env, e).0)
  {
    hide Step, Posted, Defined, Enabled, Dones, IsDone;
    StepHistory(s, env, e);
    DonesAppend(s.ctl.history, Posted(s, env, e));
    if e.Line? {
      LineReports(s, env, e.packet);
    } else if e.DataTasking? {
      TasksThere(s, env);
      DataTaskReports(s, env);
    } else if e.Saving? {
      SavingReports(s, env, e.id);
    } else {
      OtherReports(s, env, e);
    }
  }

  lemma TasksThere(s: Session, env: Env)
    requires Enabled(s, env, DataTasking)
    ensures s.pump.tasks != []
  {
  }

  // ---------------------------------------------------------------- uploads, and the whole invariant

  ghost predicate UploadsSound(s: Session) {
    forall t :: t in s.uploads ==> Up.Inv(s.uploads[t])
  }

  lemma StepKeepsUploads(s: Session, env: Env, e: Event)
    requires Defined(s) && Enabled(s, env, e) && UploadsSound(s)
    ensures UploadsSound(Step(s, env, e).0)
  {
    hide PacketDefined, LineReceived, H.BodyResponse, Http, C.Next, C.Inv, D.Inv, C.Post, D.RunTask, D.Next, D.Close,
      Reply, LineFrame, Up.Inv, Up.Next, Up.Enabled;
    if e.Line? {
      LineFrames(s, env, e.packet);
      FrameUploads(s, LineReceived(s, env, e.packet).0);
    } else if e.Accepting? && s.accepts[e.id].ForUpload? {
      StartInv(s.accepts[e.id].path);
    } else if e.UploadStep? {
      Up.NextKeeps(s.uploads[e.id], e.move);
    } else if e.Saving? {
      SaveInv(s.uploads[e.id]);
    }
  }

  lemma FrameUploads(s: Session, t: Session)
    requires LineFrame(s, t)
    ensures t.uploads == s.uploads
  {
  }

  lemma StartInv(path: string)
    ensures Up.Inv(Up.Start(path))
  {
  }

  lemma SaveInv(u: Up.Upload)
    requires Up.Inv(u) && Up.Enabled(u, Up.Saving)
    ensures Up.Inv(Up.Save(u))
  {
  }

  /** Everything a session keeps, whatever happens to it. */
  ghost predicate Inv(s: Session) {
    && Defined(s) && Stages(s) && Reading(s) && Answers(s) && Commands(s) && Origins(s) && Replies(s) && Reported(s)
    && UploadsSound(s)
  }

  lemma StepKeepsInv(s: Session, env: Env, e: Event)
    requires Inv(s) && Enabled(s, env, e)
    ensures Inv(Step(s, env, e).0)
  {
    hide Stages, Answers, Commands, Origins, Replies, Reported, UploadsSound, Step, Enabled, C.Inv, D.Inv, Refused;
    StepKeepsControl(s, env, e);
    StepKeepsData(s, env, e);
    StepKeepsStages(s, env, e);
    StepKeepsReading(s, env, e);
    StepKeepsAnswers(s, env, e);
    StepKeepsCommands(s, env, e);
    StepKeepsOrigins(s, env, e);
    StepKeepsReplies(s, env, e);
    StepKeepsReported(s, env, e);
    StepKeepsUploads(s, env, e);
  }

  lemma FreshInv(greet: bool)
    ensures Inv(Fresh(greet))
  {
    hide Reply, D.Inv, Replies, Commands, Answers, Refused, Reported;
    D.EmptyInv();
    FreshReplies(greet);
    FreshHistory(greet);
    FreshReported(greet);
  }

  lemma FreshHistory(greet: bool)
    ensures Commands(Fresh(greet)) && Answers(Fresh(greet)) && !Refused(Fresh(greet).ctl.history)
  {
    hide Reply;
    assert F.LoggedInBy([]) == None && F.DirText([]) == "/" && F.DirsBy([]) == [];
    var h := Fresh(greet).ctl.history;
    if greet {
      assert h[..0] == [] && h[..|h| - 1] == [];
    }
  }

  lemma FreshReported(greet: bool)
    ensures Reported(Fresh(greet))
  {
    hide Reply;
    var h := Fresh(greet).ctl.history;
    if greet {
      assert h == [] + [h[0]];
      DonesAppend([], Some(h[0]));
    }
  }

  lemma CountOfOne(m: Message, tag: Tag)
    ensures Count([m], tag) == if m.tag == tag then 1 else 0
  {
    assert [m][..0] == [];
  }

  lemma FreshReplies(greet: bool)
    ensures Replies(Fresh(greet))
  {
    hide Reply, Count, Spelled;
    ReplySpelled(220, "Welcome to ObjectStorage server", Plain);
    var h := Fresh(greet).ctl.history;
    forall tag: Tag ensures tag != Plain ==> Count(h, tag) == 0 {
      if greet {
        assert h == [h[0]];
        CountOfOne(h[0], tag);
      } else {
        NothingCounted(tag);
      }
    }
  }

  lemma NothingCounted(tag: Tag)
    ensures Count([], tag) == 0
  {
  }
}
