/**
 What clients are sent, tied to the store: every final HTTP response and every LIST or RETR
 download is what the handlers make of the users and files at the moment its request or
 command was taken.
 */
module ServerAnswers {
  import opened Messages
  import opened SessionModel
  import opened SessionInvariants
  import opened SessionHistories
  import opened SessionStore
  import opened Server
  import opened ServerProperties
  import opened StoreHistory
  import C = ControlPump
  import D = DataPump
  import F = FtpCommands
  import FtpParser
  import H = HttpHandlers
  import HttpParser
  import HttpResponse
  import Listing
  import MemoryFs
  import R = SessionRuns
  import U = UserDatabase

  // ---------------------------------------------------------------- the moments of a run

  /** The states a run passes through, the first and the last included. */
  ghost function Trail(w: World, turns: seq<Turn>): (trail: seq<World>)
    requires WorldInv(w) && ValidRun(w, turns)
    ensures |trail| == |turns| + 1
    decreases |turns|
  {
    if turns == [] then [w]
    else
      NextKeeps(w, turns[0]);
      [w] + Trail(Next(w, turns[0]), turns[1..])
  }

  /** State k of the trail is where the first k turns lead. */
  lemma {:induction false} TrailIsExec(w: World, turns: seq<Turn>, k: nat)
    requires WorldInv(w) && ValidRun(w, turns) && k <= |turns|
    ensures ValidRun(w, turns[..k]) && Trail(w, turns)[k] == Exec(w, turns[..k])
    decreases k
  {
    hide WorldInv, TurnEnabled, Next;
    if k > 0 {
      NextKeeps(w, turns[0]);
      TrailIsExec(Next(w, turns[0]), turns[1..], k - 1);
      assert turns[..k][1..] == turns[1..][..k - 1];
    } else {
      assert turns[..0] == [];
    }
  }

  // ---------------------------------------------------------------- what one session was sent

  /** With these users, files and listing the handlers answer the request at once with this response. */
  ghost predicate AtOnce(users: U.Users, files: MemoryFs.Files, listing: seq<string>, authenticate: bool,
                         r: HttpParser.Request, response: HttpResponse.Response) {
    H.RequestDefined(authenticate, r) &&
    match H.Handle(users, files, listing, authenticate, r)
    case Refuse(given) => response == given
    case Respond(given) => response == given
    case Remove(_, given) => response == given
    case ReadBody(_, _, _) => false
  }

  /** With these users the handlers read the body of the request first. */
  ghost predicate BodyFirst(users: U.Users, files: MemoryFs.Files, listing: seq<string>, authenticate: bool,
                            r: HttpParser.Request) {
    H.RequestDefined(authenticate, r) && H.Handle(users, files, listing, authenticate, r).ReadBody?
  }

  /** Turn a took request r as number n of session i, when the store could be listed like this. */
  ghost predicate TakenAt(trail: seq<World>, i: nat, n: nat, r: HttpParser.Request, a: nat, listing: seq<string>) {
    && a + 1 < |trail| && i < |trail[a].sessions| && i < |trail[a + 1].sessions|
    && |trail[a].sessions[i].requests| == n && |trail[a + 1].sessions[i].requests| == n + 1
    && trail[a + 1].sessions[i].requests[n] == r
    && MemoryFs.IsListing(trail[a].files, listing)
  }

  /** Turn b posted the final response number n of session i. */
  ghost predicate RepliedAt(trail: seq<World>, i: nat, n: nat, b: nat) {
    && b + 1 < |trail| && i < |trail[b].sessions| && i < |trail[b + 1].sessions|
    && FinalCount(trail[b].sessions[i].ctl.history) == n && FinalCount(trail[b + 1].sessions[i].ctl.history) == n + 1
  }

  /**
   The response was made from the users and files before the turn that took the request, or, if
   the body had to be read, from the files before the turn that posted the response and from
   whether the body came.
   */
  ghost predicate AnswerAt(trail: seq<World>, i: nat, n: nat, r: HttpParser.Request, response: HttpResponse.Response,
                           a: nat, b: nat, listing: seq<string>, came: bool) {
    && TakenAt(trail, i, n, r, a, listing) && RepliedAt(trail, i, n, b) && a <= b
    && var w := trail[a];
       || (a == b && AtOnce(w.users, w.files, listing, w.authenticate, r, response))
       || (BodyFirst(w.users, w.files, listing, w.authenticate, r)
           && response == H.BodyResponse(trail[b].files, r.uri, came))
  }

  /** A final response in the history of session i is an answer at its moments. */
  ghost predicate Told(trail: seq<World>, i: nat, s: Session, m: Message) {
    IsFinal(m.tag) ==>
      && m.tag.request < |s.requests|
      && exists a: nat, b: nat, listing: seq<string> ::
           AnswerAt(trail, i, m.tag.request, s.requests[m.tag.request], m.tag.response, a, b, listing,
                    m.tag.request in s.bodies)
  }

  /** Turn a took request r as number n of session i, and its body was to be read first. */
  ghost predicate AwaitedAt(trail: seq<World>, i: nat, n: nat, r: HttpParser.Request, a: nat, listing: seq<string>) {
    && TakenAt(trail, i, n, r, a, listing)
    && BodyFirst(trail[a].users, trail[a].files, listing, trail[a].authenticate, r)
  }

  ghost predicate Awaited(trail: seq<World>, i: nat, n: nat, r: HttpParser.Request) {
    exists a: nat, listing: seq<string> :: AwaitedAt(trail, i, n, r, a, listing)
  }

  ghost predicate BodyAwaited(trail: seq<World>, i: nat, s: Session) {
    BodyOutstanding(s) ==>
      s.requests != [] && Awaited(trail, i, |s.requests| - 1, s.requests[|s.requests| - 1])
  }

  /** What a LIST or RETR sends: the text of a listing, or the file under working directory and argument. */
  ghost predicate Sent(files: MemoryFs.Files, listing: seq<string>, dir: string, l: F.Logged, bytes: string) {
    || (l.command == FtpParser.List && bytes == Listing.Text(listing))
    || (l.command == FtpParser.Retr && |l.tokens| >= 2
        && dir + l.tokens[1] in files && bytes == files[dir + l.tokens[1]])
  }

  /** Turn a took command l as number o of session i, and these are the bytes it sends. */
  ghost predicate DownloadAt(trail: seq<World>, i: nat, o: nat, l: F.Logged, bytes: string,
                             a: nat, listing: seq<string>) {
    && a + 1 < |trail| && i < |trail[a].sessions| && i < |trail[a + 1].sessions|
    && |trail[a].sessions[i].log| == o && |trail[a + 1].sessions[i].log| == o + 1
    && trail[a + 1].sessions[i].log[o] == l
    && MemoryFs.IsListing(trail[a].files, listing)
    && Sent(trail[a].files, listing, trail[a].sessions[i].ftp.workingDir, l, bytes)
  }

  ghost predicate DownloadTold(trail: seq<World>, i: nat, s: Session, t: nat, bytes: string) {
    && t < |s.origins| && s.origins[t] < |s.log|
    && exists a: nat, listing: seq<string> :: DownloadAt(trail, i, s.origins[t], s.log[s.origins[t]], bytes, a, listing)
  }

  ghost predicate DownloadsTold(trail: seq<World>, i: nat, s: Session) {
    && (forall t :: t in s.accepts && s.accepts[t].ForDownload? ==> DownloadTold(trail, i, s, t, s.accepts[t].bytes))
    && (forall k :: 0 <= k < |s.pump.accepted| ==>
          DownloadTold(trail, i, s, s.pump.accepted[k].id, s.pump.accepted[k].bytes))
  }

  /** Everything session i has been sent, or will be sent for what it asked, goes back to its moments. */
  ghost predicate Story(trail: seq<World>, i: nat, s: Session) {
    && (forall k :: 0 <= k < |s.ctl.history| ==> Told(trail, i, s, s.ctl.history[k]))
    && BodyAwaited(trail, i, s)
    && DownloadsTold(trail, i, s)
  }

  // ---------------------------------------------------------------- longer trails tell the same

  lemma AnswerStays(trail: seq<World>, v: World, i: nat, n: nat, r: HttpParser.Request, response: HttpResponse.Response,
                    a: nat, b: nat, listing: seq<string>, came: bool)
    requires AnswerAt(trail, i, n, r, response, a, b, listing, came)
    ensures AnswerAt(trail + [v], i, n, r, response, a, b, listing, came)
  {
    hide AtOnce, BodyFirst, MemoryFs.IsListing, FinalCount;
  }

  lemma ToldStays(trail: seq<World>, v: World, i: nat, s: Session, t: Session, m: Message)
    requires Told(trail, i, s, m) && s.requests <= t.requests
    requires IsFinal(m.tag) ==> (m.tag.request in s.bodies <==> m.tag.request in t.bodies)
    ensures Told(trail + [v], i, t, m)
  {
    hide AnswerAt;
    if IsFinal(m.tag) {
      var n := m.tag.request;
      var came := n in s.bodies;
      var a: nat, b: nat, listing: seq<string> :|
        AnswerAt(trail, i, n, s.requests[n], m.tag.response, a, b, listing, came);
      AnswerStays(trail, v, i, n, s.requests[n], m.tag.response, a, b, listing, came);
    }
  }

  lemma BodyAwaitedStays(trail: seq<World>, v: World, i: nat, s: Session, t: Session)
    requires BodyAwaited(trail, i, s) && BodyOutstanding(s) == BodyOutstanding(t) && t.requests == s.requests
    ensures BodyAwaited(trail + [v], i, t)
  {
    hide BodyFirst, MemoryFs.IsListing;
    if BodyOutstanding(s) {
      var n := |s.requests| - 1;
      var a: nat, listing: seq<string> :| AwaitedAt(trail, i, n, s.requests[n], a, listing);
      assert AwaitedAt(trail + [v], i, n, s.requests[n], a, listing);
    }
  }

  lemma DownloadStays(trail: seq<World>, v: World, i: nat, s: Session, s': Session, t: nat, bytes: string)
    requires DownloadTold(trail, i, s, t, bytes) && s.log <= s'.log && s.origins <= s'.origins
    ensures DownloadTold(trail + [v], i, s', t, bytes)
  {
    hide Sent, MemoryFs.IsListing;
    var o := s.origins[t];
    var a: nat, listing: seq<string> :| DownloadAt(trail, i, o, s.log[o], bytes, a, listing);
    assert DownloadAt(trail + [v], i, o, s'.log[o], bytes, a, listing);
  }

  lemma DownloadsStay(trail: seq<World>, v: World, i: nat, s: Session, s': Session)
    requires DownloadsTold(trail, i, s) && s.log <= s'.log && s.origins <= s'.origins
    requires forall t :: t in s'.accepts ==> t in s.accepts && s'.accepts[t] == s.accepts[t]
    requires s'.pump.accepted == s.pump.accepted
    ensures DownloadsTold(trail + [v], i, s')
  {
    hide DownloadTold;
    forall t | t in s'.accepts && s'.accepts[t].ForDownload?
      ensures DownloadTold(trail + [v], i, s', t, s'.accepts[t].bytes)
    {
      DownloadStays(trail, v, i, s, s', t, s.accepts[t].bytes);
    }
    forall k | 0 <= k < |s'.pump.accepted|
      ensures DownloadTold(trail + [v], i, s', s'.pump.accepted[k].id, s'.pump.accepted[k].bytes)
    {
      DownloadStays(trail, v, i, s, s', s.pump.accepted[k].id, s.pump.accepted[k].bytes);
    }
  }

  lemma StoryStays(trail: seq<World>, v: World, i: nat, s: Session)
    requires Story(trail, i, s)
    ensures Story(trail + [v], i, s)
  {
    hide Told, BodyAwaited, DownloadsTold, BodyOutstanding;
    forall k | 0 <= k < |s.ctl.history| ensures Told(trail + [v], i, s, s.ctl.history[k]) {
      ToldStays(trail, v, i, s, s, s.ctl.history[k]);
    }
    BodyAwaitedStays(trail, v, i, s, s);
    DownloadsStay(trail, v, i, s, s);
  }

  // ---------------------------------------------------------------- what one step adds

  /** A final response a step posts is made at once, or from the body just read. */
  ghost predicate StepTells(s: Session, t: Session, env: Env, e: Event, m: Message)
    requires IsFinal(m.tag)
  {
    && m.tag.request == FinalCount(s.ctl.history) && FinalCount(t.ctl.history) == FinalCount(s.ctl.history) + 1
    && if e.Line? then
         && m.tag.request == |s.requests| && |t.requests| == |s.requests| + 1 && s.requests <= t.requests
         && AtOnce(env.ftp.users, env.ftp.files, env.ftp.listing, env.authenticate,
                   t.requests[|s.requests|], m.tag.response)
       else
         && BodyOutstanding(s) && s.requests != [] && m.tag.request == |s.requests| - 1 && t.requests == s.requests
         && (m.tag.request in t.bodies <==> e.Body?)
         && m.tag.response == H.BodyResponse(env.ftp.files, s.requests[|s.requests| - 1].uri, e.Body?)
  }

  lemma HttpTells(s: Session, env: Env, r: HttpParser.Request)
    requires H.RequestDefined(env.authenticate, r)
    ensures var m := HttpMessage(s, env, r);
            m.Some? && IsFinal(m.value.tag) ==>
              && m.value.tag.request == |s.requests|
              && AtOnce(env.ftp.users, env.ftp.files, env.ftp.listing, env.authenticate, r, m.value.tag.response)
    ensures s.inputs == [] && BodyOutstanding(HttpRequest(s, env, r).0) ==>
              BodyFirst(env.ftp.users, env.ftp.files, env.ftp.listing, env.authenticate, r)
  {
    hide H.RequestDefined, H.Handle, HttpResponse.Serialized, HttpResponse.OfStatus, C.Post;
  }

  /** What a line does: its final response is made at once, or its body is read first. */
  lemma LineTells(s: Session, env: Env, packet: string)
    requires PacketDefined(s, env, packet) && |s.inputs| == 1
    ensures var m := LineMessage(s, env, packet);
            var t := LineReceived(s, env, packet).0;
            && (m.Some? && IsFinal(m.value.tag) ==>
                  && m.value.tag.request == |s.requests| && |t.requests| == |s.requests| + 1 && s.requests <= t.requests
                  && AtOnce(env.ftp.users, env.ftp.files, env.ftp.listing, env.authenticate,
                            t.requests[|s.requests|], m.value.tag.response))
            && (BodyOutstanding(t) ==>
                  && |t.requests| == |s.requests| + 1
                  && BodyFirst(env.ftp.users, env.ftp.files, env.ftp.listing, env.authenticate,
                               t.requests[|s.requests|]))
  {
    hide F.RequestDefined, H.RequestDefined, HttpParser.Defined, HttpParser.Parse, FtpParser.Parse, FtpLine,
      HttpRequest, IsHttpPacket, FtpMessage, HttpMessage, AtOnce, BodyFirst;
    var t := s.(inputs := s.inputs[1..]);
    if IsHttpPacket(packet) {
      var r := HttpParser.Parse(packet);
      HttpTells(t, env, r);
      HttpExtends(t, env, r);
      SameHttpMessage(s, t, env, r);
    } else {
      FtpMessageFits(t, env, FtpParser.Parse(packet));
      SameFtpMessage(s, t, env, FtpParser.Parse(packet));
    }
  }

  /** A final response is numbered by the finals before it. */
  lemma FinalIsNumbered(s: Session, t: Session, m: Message)
    requires Answers(t) && t.ctl.history == s.ctl.history + [m] && IsFinal(m.tag)
    ensures m.tag.request == FinalCount(s.ctl.history) && FinalCount(t.ctl.history) == FinalCount(s.ctl.history) + 1
  {
    hide FinalCount, HttpResponse.Serialized, HttpResponse.SelfDelimiting;
    var n := |s.ctl.history|;
    FinalCountAppend(s.ctl.history, m);
    assert t.ctl.history[..n] == s.ctl.history;
    assert Fits(t.ctl.history[n], FinalCount(t.ctl.history[..n]), |t.requests|);
  }

  lemma BodyTells(s: Session, env: Env, ok: bool)
    requires BodyOutstanding(s) && s.requests != [] && BodyMatches(s)
    ensures var tag := BodyMessage(s, env, ok).tag;
            && tag.Answer? && tag.request == |s.requests| - 1
            && tag.response == H.BodyResponse(env.ftp.files, s.requests[|s.requests| - 1].uri, ok)
  {
    hide HttpResponse.Serialized;
  }

  lemma StepTellsFinal(s: Session, env: Env, e: Event)
    requires Inv(s) && Enabled(s, env, e)
    ensures Defined(s)
    ensures var m := Posted(s, env, e);
            m.Some? && IsFinal(m.value.tag) ==> StepTells(s, Step(s, env, e).0, env, e, m.value)
  {
    hide Inv, Stages, Answers, Commands, Origins, Replies, Reported, UploadsSound, C.Inv, D.Inv, PacketDefined, Step,
      LineMessage, LineReceived, BodyMessage, AtOnce, Refused, FinalCount;
    R.InvParts(s);
    StepKeepsInv(s, env, e);
    R.InvParts(Step(s, env, e).0);
    StepRequests(s, env, e);
    StepHistory(s, env, e);
    var m := Posted(s, env, e);
    if m.Some? && IsFinal(m.value.tag) {
      FinalIsNumbered(s, Step(s, env, e).0, m.value);
      if e.Line? {
        LineTells(s, env, e.packet);
        LineIsStep(s, env, e.packet);
      } else {
        BodyTells(s, env, e.Body?);
        BodyIsNew(s);
      }
    }
  }

  /** After a step a body is awaited that was before, or the step took the request it belongs to. */
  lemma StepAwaits(s: Session, env: Env, e: Event)
    requires Inv(s) && Enabled(s, env, e)
    ensures Defined(s)
    ensures var t := Step(s, env, e).0;
            BodyOutstanding(t) ==>
              if e.Line? then
                && |t.requests| == |s.requests| + 1
                && BodyFirst(env.ftp.users, env.ftp.files, env.ftp.listing, env.authenticate, t.requests[|s.requests|])
              else BodyOutstanding(s) && t.requests == s.requests
  {
    hide Inv, Stages, Answers, Commands, Origins, Replies, Reported, UploadsSound, C.Inv, D.Inv, PacketDefined, Step,
      LineMessage, LineReceived, BodyFirst, Refused;
    R.InvParts(s);
    StepRequests(s, env, e);
    if e.Line? {
      LineTells(s, env, e.packet);
      LineIsStep(s, env, e.packet);
    }
  }

  /** The bytes a command is to send are those of its moment. */
  lemma CommandSends(s: F.State, env: F.Env, r: FtpParser.Request)
    requires F.RequestDefined(s, r)
    ensures var o := F.Handle(s, env, r);
            o.effect.StartDownload? ==> Sent(env.files, env.listing, s.workingDir, F.LogOf(o, r), o.effect.bytes)
  {
    hide F.PassiveText, Listing.Text;
  }

  /** A line leaves the awaited transfers alone, or adds one, whose bytes are those of the moment. */
  ghost predicate LineSends(s: Session, t: Session, env: Env) {
    || (t.accepts == s.accepts && t.origins == s.origins && s.log <= t.log)
    || (&& |t.log| == |s.log| + 1 && s.log <= t.log && t.origins == s.origins + [|s.log|]
        && |s.origins| in t.accepts && t.accepts == s.accepts[|s.origins| := t.accepts[|s.origins|]]
        && (t.accepts[|s.origins|].ForDownload? ==>
              Sent(env.ftp.files, env.ftp.listing, s.ftp.workingDir, t.log[|s.log|], t.accepts[|s.origins|].bytes)))
  }

  lemma FtpSends(s: Session, env: Env, r: FtpParser.Request)
    requires r.valid ==> F.RequestDefined(s.ftp, r)
    ensures LineSends(s, FtpLine(s, env, r).0, env)
  {
    hide F.Handle, F.RequestDefined, C.Post, Reply, Sent;
    if r.valid {
      CommandSends(s.ftp, env.ftp, r);
      F.EffectsNeedLogin(s.ftp, env.ftp, r);
    }
  }

  lemma LineSendsIt(s: Session, env: Env, packet: string)
    requires PacketDefined(s, env, packet) && s.inputs != []
    ensures LineSends(s, LineReceived(s, env, packet).0, env)
  {
    hide F.RequestDefined, H.RequestDefined, HttpParser.Defined, HttpParser.Parse, FtpParser.Parse, FtpLine,
      HttpRequest, IsHttpPacket, Sent;
    var t := s.(inputs := s.inputs[1..]);
    if IsHttpPacket(packet) {
      HttpLeavesFtp(t, env, HttpParser.Parse(packet));
    } else {
      FtpSends(t, env, FtpParser.Parse(packet));
    }
  }

  // ---------------------------------------------------------------- one step of a session in a run

  /** The last turn of the trail, from its last but one state w to v, was this step of session i. */
  ghost predicate StepOf(trail: seq<World>, v: World, i: nat, env: Env, e: Event) {
    && trail != [] && i < |trail[|trail| - 1].sessions| && i < |v.sessions|
    && var w := trail[|trail| - 1];
       && env.ftp.users == w.users && env.ftp.files == w.files && env.authenticate == w.authenticate
       && MemoryFs.IsListing(w.files, env.ftp.listing)
       && Inv(w.sessions[i]) && Defined(w.sessions[i]) && Enabled(w.sessions[i], env, e)
       && v.sessions[i] == Step(w.sessions[i], env, e).0
  }

  ghost function Last(trail: seq<World>): World
    requires trail != []
  {
    trail[|trail| - 1]
  }

  lemma LineToldAt(trail: seq<World>, v: World, i: nat, env: Env, e: Event, m: Message)
    requires StepOf(trail, v, i, env, e) && e.Line? && IsFinal(m.tag)
    requires StepTells(Last(trail).sessions[i], v.sessions[i], env, e, m)
    ensures Told(trail + [v], i, v.sessions[i], m)
  {
    hide Inv, Defined, Enabled, Step, AtOnce, BodyFirst, FinalCount, MemoryFs.IsListing;
    var a := |trail| - 1;
    var n := m.tag.request;
    assert (trail + [v])[a] == trail[a] && (trail + [v])[a + 1] == v;
    assert AnswerAt(trail + [v], i, n, v.sessions[i].requests[n], m.tag.response, a, a,
                    env.ftp.listing, n in v.sessions[i].bodies);
  }

  lemma BodyToldAt(trail: seq<World>, v: World, i: nat, env: Env, e: Event, m: Message)
    requires StepOf(trail, v, i, env, e) && !e.Line? && IsFinal(m.tag)
    requires StepTells(Last(trail).sessions[i], v.sessions[i], env, e, m)
    requires BodyAwaited(trail, i, Last(trail).sessions[i])
    ensures Told(trail + [v], i, v.sessions[i], m)
  {
    hide Inv, Defined, Enabled, Step, AtOnce, BodyFirst, FinalCount, MemoryFs.IsListing, H.BodyResponse;
    var b := |trail| - 1;
    var n := m.tag.request;
    var r := v.sessions[i].requests[n];
    var a: nat, listing: seq<string> :| AwaitedAt(trail, i, n, r, a, listing);
    var longer := trail + [v];
    assert longer[a] == trail[a] && longer[a + 1] == trail[a + 1];
    assert longer[b] == trail[b] && longer[b + 1] == v;
    assert AnswerAt(longer, i, n, r, m.tag.response, a, b, listing, n in v.sessions[i].bodies);
  }

  /** The final response a step posts is told at its moments. */
  lemma PostedIsTold(trail: seq<World>, v: World, i: nat, env: Env, e: Event)
    requires StepOf(trail, v, i, env, e) && Story(trail, i, Last(trail).sessions[i])
    ensures var m := Posted(Last(trail).sessions[i], env, e);
            m.Some? ==> Told(trail + [v], i, v.sessions[i], m.value)
  {
    hide Inv, Defined, Enabled, Step, Posted, StepTells, DownloadsTold, BodyAwaited, AnswerAt;
    var s := Last(trail).sessions[i];
    var m := Posted(s, env, e);
    StepTellsFinal(s, env, e);
    if m.Some? && IsFinal(m.value.tag) {
      if e.Line? {
        LineToldAt(trail, v, i, env, e, m.value);
      } else {
        BodyToldAt(trail, v, i, env, e, m.value);
      }
    }
  }

  lemma {:induction false} FinalsBefore(history: seq<Message>, k: nat)
    requires k < |history| && IsFinal(history[k].tag)
    ensures FinalCount(history[..k]) < FinalCount(history)
  {
    var n := |history| - 1;
    if k < n {
      FinalsBefore(history[..n], k);
      assert history[..n][..k] == history[..k];
    }
  }

  /** For a request that was answered before the step, the step receives no body. */
  lemma OldBodiesStay(s: Session, env: Env, e: Event, k: nat)
    requires Inv(s) && Enabled(s, env, e) && k < |s.ctl.history| && IsFinal(s.ctl.history[k].tag)
    ensures Defined(s)
    ensures var n := s.ctl.history[k].tag.request;
            n in s.bodies <==> n in Step(s, env, e).0.bodies
  {
    hide Inv, Step, Enabled, Defined, Stages, Commands, Origins, Replies, Reported, UploadsSound, FinalCount, Numbered;
    R.InvParts(s);
    StepRequests(s, env, e);
    FinalsBefore(s.ctl.history, k);
    RequestIsCount(s, k);
  }

  lemma RequestIsCount(s: Session, k: nat)
    requires Answers(s) && k < |s.ctl.history| && IsFinal(s.ctl.history[k].tag)
    ensures s.ctl.history[k].tag.request == FinalCount(s.ctl.history[..k])
  {
    hide FinalCount, HttpResponse.Serialized, HttpResponse.SelfDelimiting;
    assert Fits(s.ctl.history[k], FinalCount(s.ctl.history[..k]), |s.requests|);
  }

  lemma StepKeepsTold(trail: seq<World>, v: World, i: nat, env: Env, e: Event)
    requires StepOf(trail, v, i, env, e) && Story(trail, i, Last(trail).sessions[i])
    ensures var t := v.sessions[i];
            forall k :: 0 <= k < |t.ctl.history| ==> Told(trail + [v], i, t, t.ctl.history[k])
  {
    hide Inv, Defined, Enabled, Step, Posted, Told, DownloadsTold, BodyAwaited;
    var s, t := Last(trail).sessions[i], v.sessions[i];
    PostedIsTold(trail, v, i, env, e);
    StepHistory(s, env, e);
    StepExtends(s, env, e);
    RequestsExtend(s, t);
    forall k | 0 <= k < |t.ctl.history| ensures Told(trail + [v], i, t, t.ctl.history[k]) {
      if k < |s.ctl.history| {
        if IsFinal(s.ctl.history[k].tag) {
          OldBodiesStay(s, env, e, k);
        }
        ToldStays(trail, v, i, s, t, s.ctl.history[k]);
      }
    }
  }

  lemma RequestsExtend(s: Session, t: Session)
    requires Extends(s, t)
    ensures s.requests <= t.requests && s.log <= t.log && s.origins <= t.origins
  {
  }

  lemma StepKeepsAwaited(trail: seq<World>, v: World, i: nat, env: Env, e: Event)
    requires StepOf(trail, v, i, env, e) && Story(trail, i, Last(trail).sessions[i])
    ensures BodyAwaited(trail + [v], i, v.sessions[i])
  {
    hide Inv, Defined, Enabled, Step, Told, DownloadsTold, BodyOutstanding, BodyFirst, MemoryFs.IsListing;
    var s, t := Last(trail).sessions[i], v.sessions[i];
    StepAwaits(s, env, e);
    if BodyOutstanding(t) {
      if e.Line? {
        var a := |trail| - 1;
        assert (trail + [v])[a] == trail[a] && (trail + [v])[a + 1] == v;
        assert AwaitedAt(trail + [v], i, |s.requests|, t.requests[|s.requests|], a, env.ftp.listing);
      } else {
        BodyAwaitedStays(trail, v, i, s, t);
      }
    }
  }

  /** A transfer the line began sends the bytes of this moment. */
  lemma BegunIsTold(trail: seq<World>, v: World, i: nat, env: Env, e: Event)
    requires StepOf(trail, v, i, env, e)
    requires var s, t := Last(trail).sessions[i], v.sessions[i];
             && LineSends(s, t, env) && |t.origins| == |s.origins| + 1
             && |s.origins| in t.accepts && t.accepts[|s.origins|].ForDownload?
    ensures var s, t := Last(trail).sessions[i], v.sessions[i];
            DownloadTold(trail + [v], i, t, |s.origins|, t.accepts[|s.origins|].bytes)
  {
    hide Inv, Defined, Enabled, Step, Sent, MemoryFs.IsListing;
    var s, t := Last(trail).sessions[i], v.sessions[i];
    var a := |trail| - 1;
    assert (trail + [v])[a] == trail[a] && (trail + [v])[a + 1] == v;
    assert DownloadAt(trail + [v], i, |s.log|, t.log[|s.log|], t.accepts[|s.origins|].bytes, a, env.ftp.listing);
  }

  lemma LineKeepsDownloads(trail: seq<World>, v: World, i: nat, env: Env, e: Event)
    requires StepOf(trail, v, i, env, e) && Story(trail, i, Last(trail).sessions[i])
    requires LineSends(Last(trail).sessions[i], v.sessions[i], env)
    requires v.sessions[i].pump.accepted == Last(trail).sessions[i].pump.accepted
    ensures DownloadsTold(trail + [v], i, v.sessions[i])
  {
    hide Inv, Defined, Enabled, Step, Told, BodyAwaited, DownloadTold, Sent, MemoryFs.IsListing;
    var s, t := Last(trail).sessions[i], v.sessions[i];
    if t.origins == s.origins {
      DownloadsStay(trail, v, i, s, t);
    } else {
      var n := |s.origins|;
      if t.accepts[n].ForDownload? {
        BegunIsTold(trail, v, i, env, e);
      }
      forall x | x in t.accepts && t.accepts[x].ForDownload?
        ensures DownloadTold(trail + [v], i, t, x, t.accepts[x].bytes)
      {
        if x != n {
          DownloadStays(trail, v, i, s, t, x, s.accepts[x].bytes);
        }
      }
      forall k | 0 <= k < |t.pump.accepted|
        ensures DownloadTold(trail + [v], i, t, t.pump.accepted[k].id, t.pump.accepted[k].bytes)
      {
        DownloadStays(trail, v, i, s, t, s.pump.accepted[k].id, s.pump.accepted[k].bytes);
      }
    }
  }

  /** Accepting moves a download from those waiting to those accepted, with its bytes. */
  lemma AcceptKeepsDownloads(trail: seq<World>, v: World, i: nat, s: Session, id: nat)
    requires DownloadsTold(trail, i, s) && id in s.accepts
    ensures DownloadsTold(trail + [v], i, Accepted(s, id))
  {
    hide DownloadTold;
    var t := Accepted(s, id);
    forall x | x in t.accepts && t.accepts[x].ForDownload?
      ensures DownloadTold(trail + [v], i, t, x, t.accepts[x].bytes)
    {
      DownloadStays(trail, v, i, s, t, x, s.accepts[x].bytes);
    }
    forall k | 0 <= k < |t.pump.accepted|
      ensures DownloadTold(trail + [v], i, t, t.pump.accepted[k].id, t.pump.accepted[k].bytes)
    {
      if k < |s.pump.accepted| {
        DownloadStays(trail, v, i, s, t, s.pump.accepted[k].id, s.pump.accepted[k].bytes);
      } else {
        DownloadStays(trail, v, i, s, t, id, s.accepts[id].bytes);
      }
    }
  }

  lemma StepKeepsDownloads(trail: seq<World>, v: World, i: nat, env: Env, e: Event)
    requires StepOf(trail, v, i, env, e) && Story(trail, i, Last(trail).sessions[i])
    ensures DownloadsTold(trail + [v], i, v.sessions[i])
  {
    hide Inv, Step, Told, BodyAwaited, DownloadsTold, LineSends, LineReceived, Accepted, C.Inv, D.Inv, PacketDefined,
      MemoryFs.IsListing;
    var s, t := Last(trail).sessions[i], v.sessions[i];
    if e.Line? {
      LineIsStep(s, env, e.packet);
      LineSendsIt(s, env, e.packet);
      LineFrames(s, env, e.packet);
      LineKeepsDownloads(trail, v, i, env, e);
    } else if e.Accepting? {
      AcceptIsStep(s, env, e.id);
      AcceptKeepsDownloads(trail, v, i, s, e.id);
    } else {
      StepLeavesCommands(s, env, e);
      StepLeavesTransfers(s, env, e);
      DownloadsStay(trail, v, i, s, t);
    }
  }

  lemma StepKeepsStory(trail: seq<World>, v: World, i: nat, env: Env, e: Event)
    requires StepOf(trail, v, i, env, e) && Story(trail, i, Last(trail).sessions[i])
    ensures Story(trail + [v], i, v.sessions[i])
  {
    hide StepOf, Told, BodyAwaited, DownloadsTold;
    StepKeepsTold(trail, v, i, env, e);
    StepKeepsAwaited(trail, v, i, env, e);
    StepKeepsDownloads(trail, v, i, env, e);
  }

  // ---------------------------------------------------------------- over the server's runs

  ghost predicate AllStories(trail: seq<World>) {
    trail != [] && forall i :: 0 <= i < |Last(trail).sessions| ==> Story(trail, i, Last(trail).sessions[i])
  }

  lemma FreshStory(trail: seq<World>, i: nat, greet: bool)
    ensures Story(trail, i, Fresh(greet))
  {
    hide Reply, AnswerAt;
  }

  lemma NextStories(trail: seq<World>, turn: Turn)
    requires AllStories(trail) && WorldInv(Last(trail)) && TurnEnabled(Last(trail), turn)
    ensures AllStories(trail + [Next(Last(trail), turn)])
  {
    hide Story, Inv, WorldInv, Enabled, Step, Applied, MemoryFs.IsListing, Fresh, U.Inserted, Trusted;
    var w := Last(trail);
    var v := Next(w, turn);
    forall j: nat | j < |v.sessions| ensures Story(trail + [v], j, v.sessions[j]) {
      if j < |w.sessions| {
        StoryStays(trail, v, j, w.sessions[j]);
      }
      match turn
      case Connect(greet) => FreshStory(trail + [v], j, greet);
      case AddUser(_) =>
      case In(i, chance, event) =>
        WorldSession(w, i);
        R.InvParts(w.sessions[i]);
        if j == i {
          StepKeepsStory(trail, v, i, EnvOf(w, chance), event);
        }
    }
  }

  lemma {:induction false} TrailStories(before: seq<World>, w: World, turns: seq<Turn>)
    requires WorldInv(w) && ValidRun(w, turns) && AllStories(before + [w])
    ensures AllStories(before + Trail(w, turns)) && Last(Trail(w, turns)) == Exec(w, turns)
    decreases |turns|
  {
    hide WorldInv, AllStories, TurnEnabled, Next;
    if turns != [] {
      NextKeeps(w, turns[0]);
      NextStories(before + [w], turns[0]);
      TrailStories(before + [w], Next(w, turns[0]), turns[1..]);
      var rest := Trail(Next(w, turns[0]), turns[1..]);
      assert (before + [w]) + rest == before + ([w] + rest);
    }
  }

  /** Along every run of the server, from its start, every session's story can be told. */
  lemma StoriesAreTold(authenticate: bool, turns: seq<Turn>)
    requires WorldInv(Empty(authenticate)) && ValidRun(Empty(authenticate), turns)
    ensures AllStories(Trail(Empty(authenticate), turns))
    ensures Last(Trail(Empty(authenticate), turns)) == Exec(Empty(authenticate), turns)
  {
    hide WorldInv, ValidRun, Exec, Trail, Story;
    var w := Empty(authenticate);
    assert [] + [w] == [w];
    TrailStories([], w, turns);
    assert [] + Trail(w, turns) == Trail(w, turns);
  }

  // ---------------------------------------------------------------- what clients can rely on

  /** The states of a run from the server's start. */
  ghost predicate Run(authenticate: bool, turns: seq<Turn>) {
    WorldInv(Empty(authenticate)) && ValidRun(Empty(authenticate), turns)
  }

  ghost function History(authenticate: bool, turns: seq<Turn>): (trail: seq<World>)
    requires Run(authenticate, turns)
    ensures |trail| == |turns| + 1
  {
    Trail(Empty(authenticate), turns)
  }

  /** Each state of the history is reachable, and only adds to the changes of the store before it. */
  lemma HistoryStates(authenticate: bool, turns: seq<Turn>, k: nat)
    requires Run(authenticate, turns) && k <= |turns|
    ensures Reachable(History(authenticate, turns)[k])
    ensures History(authenticate, turns)[k].ops <= Last(History(authenticate, turns)).ops
  {
    hide WorldInv, Exec, ValidRun, Trail;
    TrailIsExec(Empty(authenticate), turns, k);
    RunsReach(authenticate, turns[..k]);
    OpsGrowAlong(Empty(authenticate), turns, k);
  }

  lemma {:induction false} OpsGrowAlong(w: World, turns: seq<Turn>, k: nat)
    requires WorldInv(w) && ValidRun(w, turns) && k <= |turns|
    ensures w.ops <= Last(Trail(w, turns)).ops && Trail(w, turns)[k].ops <= Last(Trail(w, turns)).ops
    decreases |turns|
  {
    hide WorldInv, TurnEnabled, Next;
    if turns != [] {
      NextKeeps(w, turns[0]);
      NextGrows(w, turns[0]);
      OpsGrowAlong(Next(w, turns[0]), turns[1..], if k == 0 then 0 else k - 1);
    }
  }

  lemma NextGrows(w: World, turn: Turn)
    requires WorldInv(w) && TurnEnabled(w, turn)
    ensures w.ops <= Next(w, turn).ops
  {
    hide Inv, WorldInv, Enabled, Step, Applied, MemoryFs.IsListing, Fresh, U.Inserted;
  }

  /**
   In every run of the server, the n-th final response of a session was made by the handlers for
   its n-th request: at the turn that took the request, from the users and files of that moment,
   or, once the body had been read or its read had failed, from the files at the turn that posted it.
   */
  lemma ResponsesAnswerTheirRequests(authenticate: bool, turns: seq<Turn>, i: nat, n: nat)
    returns (a: nat, b: nat, listing: seq<string>)
    requires Run(authenticate, turns)
    requires var w := Last(History(authenticate, turns));
             i < |w.sessions| && n < |R.FinalTags(w.sessions[i].ctl.history)|
    ensures var s := Last(History(authenticate, turns)).sessions[i];
            var tag := R.FinalTags(s.ctl.history)[n];
            && IsFinal(tag) && n < |s.requests|
            && AnswerAt(History(authenticate, turns), i, n, s.requests[n], tag.response, a, b, listing, n in s.bodies)
  {
    hide Run, Reachable, Inv, AnswerAt, Trusted, R.FinalTags, Numbered, FinalCount, DownloadsTold, BodyAwaited;
    var trail := History(authenticate, turns);
    var w := Last(trail);
    var s := w.sessions[i];
    HistoryStates(authenticate, turns, |turns|);
    ReachableSession(w, i);
    R.AnswersNumbered(s);
    R.FinalsAnswerInOrder(s.ctl.history, |s.requests|);
    HistoryIsTold(authenticate, turns, i);
    var k := TagInHistory(s.ctl.history, n);
    assert Told(trail, i, s, s.ctl.history[k]);
    a, b, listing :| AnswerAt(trail, i, n, s.requests[n], R.FinalTags(s.ctl.history)[n].response, a, b, listing,
                              n in s.bodies);
  }

  lemma HistoryIsTold(authenticate: bool, turns: seq<Turn>, i: nat)
    requires Run(authenticate, turns) && i < |Last(History(authenticate, turns)).sessions|
    ensures var w := Last(History(authenticate, turns)); Story(History(authenticate, turns), i, w.sessions[i])
  {
    hide WorldInv, ValidRun, Trail, Exec, Story;
    StoriesAreTold(authenticate, turns);
  }

  lemma {:induction false} TagInHistory(history: seq<Message>, n: nat) returns (k: nat)
    requires n < |R.FinalTags(history)|
    ensures k < |history| && history[k].tag == R.FinalTags(history)[n]
  {
    var before := history[..|history| - 1];
    if n < |R.FinalTags(before)| {
      k := TagInHistory(before, n);
    } else {
      k := |history| - 1;
    }
  }

  /** An answer to a GET that was let in is the one `handleHttpGet` gives. */
  lemma GetAnswer(users: U.Users, files: MemoryFs.Files, listing: seq<string>, authenticate: bool,
                  r: HttpParser.Request, response: HttpResponse.Response)
    requires r.valid && r.method_ == HttpParser.Get && response.code != 401
    ensures AtOnce(users, files, listing, authenticate, r, response) ==> response == H.HandleGet(files, listing, r.uri)
    ensures !BodyFirst(users, files, listing, authenticate, r)
  {
    hide H.Authorized, H.HandleGet, Listing.Text;
    assert HttpResponse.Challenge().code == 401;
  }

  /**
   The n-th response of a session, if its n-th request is a GET that is not refused: with the store
   as it was when the request was taken, it carries the bytes of the add of that path that stood
   then, or is a 404 exactly if none stood; for "/" it carries a listing of the store of then.
   */
  lemma GetTellsTheStore(authenticate: bool, turns: seq<Turn>, i: nat, n: nat) returns (a: nat, listing: seq<string>)
    requires Run(authenticate, turns)
    requires var w := Last(History(authenticate, turns));
             i < |w.sessions| && n < |R.FinalTags(w.sessions[i].ctl.history)|
    requires var s := Last(History(authenticate, turns)).sessions[i];
             var tag := R.FinalTags(s.ctl.history)[n];
             && n < |s.requests| && s.requests[n].valid && s.requests[n].method_ == HttpParser.Get
             && IsFinal(tag) && tag.response.code != 401
    ensures TakenAt(History(authenticate, turns), i, n,
                    Last(History(authenticate, turns)).sessions[i].requests[n], a, listing)
    ensures var trail := History(authenticate, turns);
            var s := Last(trail).sessions[i];
            var uri, response := s.requests[n].uri, R.FinalTags(s.ctl.history)[n].response;
            && trail[a].ops <= Last(trail).ops
            && if uri == "/" then response == HttpResponse.OfResource(HttpResponse.Ok, Listing.Text(listing))
               else if exists k, bytes :: Stands(trail[a].ops, k, uri, bytes) then
                 && response == HttpResponse.OfResource(HttpResponse.Ok, response.resource)
                 && exists k :: Stands(trail[a].ops, k, uri, response.resource)
               else response == HttpResponse.OfStatus(HttpResponse.NotFound)
  {
    hide Run, Reachable, R.FinalTags, AtOnce, BodyFirst, Listing.Text, MemoryFs.IsListing, FinalCount, History, Stands,
      H.BodyResponse;
    var b;
    a, b, listing := ResponsesAnswerTheirRequests(authenticate, turns, i, n);
    var trail := History(authenticate, turns);
    var s := Last(trail).sessions[i];
    var w, r, response := trail[a], s.requests[n], R.FinalTags(s.ctl.history)[n].response;
    GetAnswer(w.users, w.files, listing, w.authenticate, r, response);
    HistoryStates(authenticate, turns, a);
    StandingIsStored(w, r.uri);
    ResourceIs(w.files, r.uri);
  }

  /**
   So a 200 to a GET of a file carries exactly the bytes that one STOR received on its data
   connection, or one PUT as its body, of a session that was to store them under that path.
   */
  lemma GetServesReceived(authenticate: bool, turns: seq<Turn>, i: nat, n: nat) returns (a: nat, k: nat)
    requires Run(authenticate, turns)
    requires var w := Last(History(authenticate, turns));
             i < |w.sessions| && n < |R.FinalTags(w.sessions[i].ctl.history)|
    requires var s := Last(History(authenticate, turns)).sessions[i];
             var tag := R.FinalTags(s.ctl.history)[n];
             && n < |s.requests| && s.requests[n].valid && s.requests[n].method_ == HttpParser.Get
             && s.requests[n].uri != "/" && IsFinal(tag) && tag.response.code == 200
    ensures var trail := History(authenticate, turns);
            var s := Last(trail).sessions[i];
            var uri, bytes := s.requests[n].uri, R.FinalTags(s.ctl.history)[n].response.resource;
            && a < |trail| && i < |trail[a].sessions| && |trail[a].sessions[i].requests| == n
            && Received(trail[a], k, uri, bytes)
  {
    hide Run, Reachable, R.FinalTags, Listing.Text, MemoryFs.IsListing, History, NotRemovedAfter, IsUpload, IsPut;
    var listing;
    a, listing := GetTellsTheStore(authenticate, turns, i, n);
    var trail := History(authenticate, turns);
    var s := Last(trail).sessions[i];
    var w, uri := trail[a], s.requests[n].uri;
    HistoryStates(authenticate, turns, a);
    assert HttpResponse.OfStatus(HttpResponse.NotFound).code == 404;
    StandingIsStored(w, uri);
    StandingIs(w, uri, R.FinalTags(s.ctl.history)[n].response.resource);
    k := FilesAreWhole(w, uri);
  }

  /** Change k stored these bytes under the path, as an upload or a body received whole. */
  ghost predicate Received(w: World, k: nat, path: string, bytes: string) {
    && k < |w.ops| == |w.makers| && w.makers[k] < |w.sessions| && w.ops[k].AddFile?
    && var s := w.sessions[w.makers[k]];
       match w.ops[k].cause
       case SavedUpload(t) => IsUpload(s, t, path, bytes)
       case PutBody(m) => IsPut(s, m, path, bytes, w.users, w.authenticate)
       case _ => false
  }

  lemma StandingIs(w: World, path: string, bytes: string)
    requires Reachable(w)
    ensures (exists k :: Stands(w.ops, k, path, bytes)) <==> path in w.files && w.files[path] == bytes
  {
    hide Reachable, SessionsSound, OpsSound, Applicable, Replay, Stands;
    ReachableSound(w);
    FileIff(w.ops, path, bytes);
  }

  lemma ResourceIs(files: MemoryFs.Files, uri: string)
    ensures uri in files ==> HttpResponse.OfResource(HttpResponse.Ok, files[uri]).resource == files[uri]
  {
  }

  lemma StandingIsStored(w: World, path: string)
    requires Reachable(w)
    ensures path in w.files <==> exists k, bytes :: Stands(w.ops, k, path, bytes)
    ensures path in w.files ==> exists k :: Stands(w.ops, k, path, w.files[path])
  {
    hide Reachable, SessionsSound, OpsSound, Applicable, Replay, Stands;
    ReachableSound(w);
    if path in w.files {
      FileIff(w.ops, path, w.files[path]);
    }
    if k, bytes :| Stands(w.ops, k, path, bytes) {
      FileIff(w.ops, path, bytes);
    }
  }

  /**
   Every download a session has accepted goes back to the turn that took its LIST or RETR, and
   its bytes are the listing or the file of that moment.
   */
  lemma DownloadsAreOfTheirMoment(authenticate: bool, turns: seq<Turn>, i: nat, k: nat)
    returns (a: nat, listing: seq<string>)
    requires Run(authenticate, turns)
    requires var w := Last(History(authenticate, turns));
             i < |w.sessions| && k < |w.sessions[i].pump.accepted|
    ensures var s := Last(History(authenticate, turns)).sessions[i];
            var d := s.pump.accepted[k];
            && d.id < |s.origins| && s.origins[d.id] < |s.log|
            && DownloadAt(History(authenticate, turns), i, s.origins[d.id], s.log[s.origins[d.id]], d.bytes, a, listing)
  {
    hide Run, Told, BodyAwaited, DownloadAt, History;
    HistoryIsTold(authenticate, turns, i);
    var s := Last(History(authenticate, turns)).sessions[i];
    var d := s.pump.accepted[k];
    assert DownloadTold(History(authenticate, turns), i, s, d.id, d.bytes);
    a, listing :|
      DownloadAt(History(authenticate, turns), i, s.origins[d.id], s.log[s.origins[d.id]], d.bytes, a, listing);
  }

  /** For a RETR these are the bytes of the add of its key that stood when it was taken. */
  lemma RetrTellsTheStore(authenticate: bool, turns: seq<Turn>, i: nat, k: nat) returns (a: nat, path: string)
    requires Run(authenticate, turns)
    requires var w := Last(History(authenticate, turns));
             i < |w.sessions| && k < |w.sessions[i].pump.accepted|
    requires var s := Last(History(authenticate, turns)).sessions[i];
             var t := s.pump.accepted[k].id;
             t < |s.origins| && s.origins[t] < |s.log| && s.log[s.origins[t]].command == FtpParser.Retr
    ensures var trail := History(authenticate, turns);
            var s := Last(trail).sessions[i];
            var d := s.pump.accepted[k];
            var l := s.log[s.origins[d.id]];
            && a + 1 < |trail| && i < |trail[a].sessions| && |trail[a].sessions[i].log| == s.origins[d.id]
            && |l.tokens| >= 2 && path == trail[a].sessions[i].ftp.workingDir + l.tokens[1]
            && exists j :: Stands(trail[a].ops, j, path, d.bytes)
  {
    hide Run, Reachable, History, Stands, MemoryFs.IsListing, Listing.Text;
    var listing;
    a, listing := DownloadsAreOfTheirMoment(authenticate, turns, i, k);
    var trail := History(authenticate, turns);
    var s := Last(trail).sessions[i];
    path := trail[a].sessions[i].ftp.workingDir + s.log[s.origins[s.pump.accepted[k].id]].tokens[1];
    HistoryStates(authenticate, turns, a);
    StandingIsStored(trail[a], path);
  }
}
