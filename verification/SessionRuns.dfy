/** What holds over whole runs of a session, whatever it meets: any store, any users, any order of steps. */
module SessionRuns {
  import opened Wrappers
  import opened Messages
  import opened SessionModel
  import opened SessionInvariants
  import opened SessionHistories
  import C = ControlPump
  import D = DataPump
  import HttpParser
  import HttpResponse

  datatype Move = Move(env: Env, event: Event)

  ghost function After(s: Session, m: Move): (t: Session)
    requires Inv(s) && Enabled(s, m.env, m.event)
    ensures Inv(t)
  {
    StepKeepsInv(s, m.env, m.event);
    Step(s, m.env, m.event).0
  }

  ghost predicate ValidRun(s: Session, moves: seq<Move>)
    requires Inv(s)
    decreases |moves|
  {
    moves == [] ||
    (Enabled(s, moves[0].env, moves[0].event) && ValidRun(After(s, moves[0]), moves[1..]))
  }

  ghost function Exec(s: Session, moves: seq<Move>): (t: Session)
    requires Inv(s) && ValidRun(s, moves)
    ensures Inv(t)
    decreases |moves|
  {
    if moves == [] then s else Exec(After(s, moves[0]), moves[1..])
  }

  /** One more step at the end of a run. */
  lemma {:induction false} RunExtended(s: Session, moves: seq<Move>, m: Move)
    requires Inv(s) && ValidRun(s, moves) && Enabled(Exec(s, moves), m.env, m.event)
    ensures ValidRun(s, moves + [m]) && Exec(s, moves + [m]) == After(Exec(s, moves), m)
    decreases |moves|
  {
    hide Inv, Enabled, After;
    if moves == [] {
      assert [] + [m] == [m] && [m][1..] == [];
    } else {
      RunExtended(After(s, moves[0]), moves[1..], m);
      assert (moves + [m])[1..] == moves[1..] + [m];
    }
  }

  // ---------------------------------------------------------------- reads of the control socket

  /** At most one read of the control socket is outstanding, and none after a refusal. */
  lemma OneRead(s: Session)
    requires Inv(s)
    ensures |s.inputs| + (if s.startPosted then 1 else 0) == (if Refused(s.ctl.history) then 0 else 1)
  {
    hide Stages, Answers, Commands, Origins, Replies, Reported, UploadsSound, Defined, Refused, BodyMatches;
  }

  lemma NoReadNoInput(s: Session, m: Move)
    requires Inv(s) && Enabled(s, m.env, m.event) && Refused(s.ctl.history)
    ensures !m.event.Line? && !m.event.LineFailing? && !m.event.Body? && !m.event.BodyFailing? && !m.event.Starting?
  {
    hide Inv, PacketDefined;
    OneRead(s);
  }

  lemma RefusedStep(s: Session, m: Move)
    requires Inv(s) && Enabled(s, m.env, m.event) && Refused(s.ctl.history)
    ensures var t := After(s, m);
            && Refused(t.ctl.history)
            && t.requests == s.requests && t.log == s.log && t.origins == s.origins && t.inputs == []
  {
    hide Inv, Stages, Answers, Commands, Origins, Replies, Reported, UploadsSound, Refused, Step, Enabled, Defined;
    NoReadNoInput(s, m);
    InvParts(s);
    StepHistory(s, m.env, m.event);
    RefusedAppended(s.ctl.history, Posted(s, m.env, m.event));
    StepRequests(s, m.env, m.event);
    StepLeavesCommands(s, m.env, m.event);
    OneRead(After(s, m));
  }

  lemma InvParts(s: Session)
    requires Inv(s)
    ensures Defined(s) && Stages(s) && Reading(s) && Answers(s) && Commands(s) && Origins(s)
    ensures Replies(s) && Reported(s) && UploadsSound(s)
  {
    hide Defined, Stages, Reading, Answers, Commands, Origins, Replies, Reported, UploadsSound;
  }

  /**
   After a 400 or 401 the session reads nothing more, so it takes no further request or command
   and starts no further transfer, whatever else happens.
   */
  lemma {:induction false} RefusalIsFinal(s: Session, moves: seq<Move>)
    requires Inv(s) && Refused(s.ctl.history) && ValidRun(s, moves)
    ensures var t := Exec(s, moves);
            t.inputs == [] && t.requests == s.requests && t.log == s.log && t.origins == s.origins
    decreases |moves|
  {
    hide Inv, After, Refused, Enabled;
    if moves != [] {
      RefusedStep(s, moves[0]);
      RefusalIsFinal(After(s, moves[0]), moves[1..]);
    } else {
      OneRead(s);
    }
  }

  // ---------------------------------------------------------------- sessions that speak HTTP only

  ghost predicate HttpMove(m: Move) {
    m.event.Line? ==> IsHttpPacket(m.event.packet)
  }

  ghost predicate HttpMoves(moves: seq<Move>) {
    forall k :: 0 <= k < |moves| ==> HttpMove(moves[k])
  }

  ghost predicate AllHttp(history: seq<Message>) {
    forall k :: 0 <= k < |history| ==> IsHttp(history[k].tag)
  }

  /** No transfer was ever started, and every message is an HTTP response. */
  ghost predicate HttpSession(s: Session) {
    && AllHttp(s.ctl.history) && s.origins == []
    && s.accepts == map[] && s.uploads == map[] && s.pump.tasks == []
  }

  lemma HttpLine(s: Session, env: Env, packet: string)
    requires PacketDefined(s, env, packet) && s.inputs != [] && IsHttpPacket(packet)
    ensures var t := LineReceived(s, env, packet).0;
            && t.accepts == s.accepts && t.origins == s.origins && t.uploads == s.uploads && t.pump == s.pump
            && (LineMessage(s, env, packet).Some? ==> IsHttp(LineMessage(s, env, packet).value.tag))
  {
    hide HttpParser.Defined, HttpParser.Parse, H.RequestDefined, HttpRequest, HttpMessage, IsHttpPacket;
    var t := s.(inputs := s.inputs[1..]);
    var r := HttpParser.Parse(packet);
    HttpLeavesFtp(t, env, r);
    HttpFrames(t, env, r);
    FramePump(t, HttpRequest(t, env, r).0);
    FrameUploads(t, HttpRequest(t, env, r).0);
    HttpMessageFits(t, env, r);
    SameHttpMessage(s, t, env, r);
  }

  /** The pump of a session without transfers has nothing to do. */
  lemma NoTransfers(s: Session)
    requires Inv(s) && HttpSession(s)
    ensures s.pump.accepted == [] && s.pump.inflight.None?
  {
    hide Reading, Answers, Commands, Origins, Replies, Reported, UploadsSound, D.Inv, C.Inv, AllHttp;
    NoneIssued(s);
    NothingAccepted(s.pump);
  }

  lemma NoneIssued(s: Session)
    requires Stages(s)
    ensures |s.pump.accepted| > 0 ==> |s.origins| > 0
  {
    if |s.pump.accepted| > 0 {
      assert s.pump.accepted[0].id < |s.origins|;
    }
  }

  lemma NothingAccepted(p: D.Pump)
    requires D.Inv(p) && p.accepted == []
    ensures p.inflight.None?
  {
    hide D.Pending, D.Layout, D.Delivery, D.Rest;
  }

  lemma HttpStep(s: Session, m: Move)
    requires Inv(s) && Enabled(s, m.env, m.event) && HttpSession(s) && HttpMove(m)
    ensures HttpSession(After(s, m))
  {
    hide Stages, Reading, Answers, Commands, Origins, Replies, Reported, UploadsSound, C.Inv, D.Inv, PacketDefined,
      C.Next, C.Post, LineReceived, H.BodyResponse, LineMessage, IsHttpPacket, HttpResponse.Serialized;
    StepHistory(s, m.env, m.event);
    NoTransfers(s);
    if m.event.Line? {
      HttpLine(s, m.env, m.event.packet);
    }
  }

  lemma {:induction false} HttpRun(s: Session, moves: seq<Move>)
    requires Inv(s) && ValidRun(s, moves) && HttpSession(s) && HttpMoves(moves)
    ensures HttpSession(Exec(s, moves))
    decreases |moves|
  {
    hide Inv, After, HttpSession, Enabled, HttpMove;
    if moves != [] {
      HttpStep(s, moves[0]);
      HttpRun(After(s, moves[0]), moves[1..]);
    }
  }

  /** The responses in a history, in order. */
  function Responses(history: seq<Message>): (rs: seq<HttpResponse.Response>)
    requires AllHttp(history)
  {
    seq(|history|, k requires 0 <= k < |history| => history[k].tag.response)
  }

  lemma {:induction false} TextIsStream(history: seq<Message>)
    requires AllHttp(history)
    requires forall k :: 0 <= k < |history| ==> history[k].text == HttpResponse.Serialized(history[k].tag.response)
    ensures C.Text(history) == HttpResponse.Stream(Responses(history))
  {
    hide HttpResponse.Serialized;
    if history != [] {
      TextIsStream(history[1..]);
      assert Responses(history)[1..] == Responses(history[1..]);
    }
  }

  /** What a client of a response stream sees of it: the responses apart from 100 Continue. */
  function Finals(rs: seq<HttpResponse.Response>): seq<HttpResponse.Response> {
    if rs == [] then []
    else Finals(rs[..|rs| - 1]) + if rs[|rs| - 1].code == 100 then [] else [rs[|rs| - 1]]
  }

  /** The tags of the final responses in a history. */
  function FinalTags(history: seq<Message>): seq<Tag> {
    if history == [] then []
    else FinalTags(history[..|history| - 1])
         + if IsFinal(history[|history| - 1].tag) then [history[|history| - 1].tag] else []
  }

  ghost predicate AllFinal(tags: seq<Tag>) {
    forall n :: 0 <= n < |tags| ==> IsFinal(tags[n])
  }

  /** Each tag is final and bears its own place in the list as its number, below the count of requests. */
  ghost predicate InOrder(tags: seq<Tag>, requests: nat) {
    forall n :: 0 <= n < |tags| ==> IsFinal(tags[n]) && tags[n].request == n < requests
  }

  lemma InOrderAppend(tags: seq<Tag>, tag: Tag, requests: nat)
    requires InOrder(tags, requests) && IsFinal(tag) && tag.request == |tags| < requests
    ensures InOrder(tags + [tag], requests)
  {
  }

  lemma {:induction false} FinalTagsInOrder(history: seq<Message>, requests: nat)
    requires Numbered(history, requests)
    ensures |FinalTags(history)| == FinalCount(history) && InOrder(FinalTags(history), requests)
  {
    hide HttpResponse.Serialized, HttpResponse.SelfDelimiting, Numbered, InOrder;
    if history != [] {
      var n := |history| - 1;
      var before := history[..n];
      PrefixNumbered(history, requests, n);
      FinalTagsInOrder(before, requests);
      LastFits(history, requests);
      if IsFinal(history[n].tag) {
        InOrderAppend(FinalTags(before), history[n].tag, requests);
      } else {
        assert FinalTags(history) == FinalTags(before);
      }
    } else {
      NoneInOrder(requests);
    }
  }

  lemma NoneInOrder(requests: nat)
    ensures InOrder([], requests)
  {
  }

  lemma LastFits(history: seq<Message>, requests: nat)
    requires Numbered(history, requests) && history != []
    ensures var n := |history| - 1; Fits(history[n], FinalCount(history[..n]), requests)
  {
    hide FinalCount, Fits;
  }

  /** The n-th final response in a history answers the n-th request. */
  lemma FinalsAnswerInOrder(history: seq<Message>, requests: nat)
    requires Numbered(history, requests)
    ensures |FinalTags(history)| == FinalCount(history)
    ensures AllFinal(FinalTags(history))
    ensures forall n :: 0 <= n < |FinalTags(history)| ==> FinalTags(history)[n].request == n < requests
  {
    hide Numbered, FinalTags, FinalCount;
    FinalTagsInOrder(history, requests);
  }

  lemma PrefixNumbered(history: seq<Message>, requests: nat, n: nat)
    requires Numbered(history, requests) && n <= |history|
    ensures Numbered(history[..n], requests)
  {
    hide FinalCount, Fits;
    forall k | 0 <= k < n ensures Fits(history[..n][k], FinalCount(history[..n][..k]), requests) {
      assert history[..n][..k] == history[..k];
    }
  }

  ghost function ResponsesOf(tags: seq<Tag>): (rs: seq<HttpResponse.Response>)
    requires AllFinal(tags)
    ensures |rs| == |tags|
  {
    seq(|tags|, n requires 0 <= n < |tags| => assert IsFinal(tags[n]); tags[n].response)
  }

  lemma AllFinalPrefix(tags: seq<Tag>, more: seq<Tag>)
    requires AllFinal(tags + more)
    ensures AllFinal(tags)
  {
    assert forall n :: 0 <= n < |tags| ==> (tags + more)[n] == tags[n];
  }

  /** A client that drops 100 Continue keeps the final responses. */
  lemma {:induction false} FinalsAreFinalTags(history: seq<Message>, requests: nat)
    requires Numbered(history, requests) && AllHttp(history) && AllFinal(FinalTags(history))
    ensures Finals(Responses(history)) == ResponsesOf(FinalTags(history))
  {
    hide HttpResponse.Serialized, HttpResponse.SelfDelimiting, FinalCount;
    if history != [] {
      var n := |history| - 1;
      PrefixNumbered(history, requests, n);
      AllFinalPrefix(FinalTags(history[..n]), if IsFinal(history[n].tag) then [history[n].tag] else []);
      FinalsAreFinalTags(history[..n], requests);
      assert Responses(history)[..n] == Responses(history[..n]);
      assert Fits(history[n], FinalCount(history[..n]), requests);
    }
  }

  lemma {:induction false} FinalsOfPrefix(part: seq<HttpResponse.Response>, rs: seq<HttpResponse.Response>)
    requires part <= rs
    ensures Finals(part) <= Finals(rs)
    decreases |rs|
  {
    if part == rs {
    } else {
      FinalsOfPrefix(part, rs[..|rs| - 1]);
    }
  }

  lemma NumberedTexts(history: seq<Message>, requests: nat)
    requires Numbered(history, requests) && AllHttp(history)
    ensures forall k :: 0 <= k < |history| ==> history[k].text == HttpResponse.Serialized(history[k].tag.response)
    ensures HttpResponse.AllSelfDelimiting(Responses(history))
  {
    hide HttpResponse.Serialized, HttpResponse.SelfDelimiting, FinalCount;
    assert forall k :: 0 <= k < |history| ==> Fits(history[k], FinalCount(history[..k]), requests);
  }

  /** What a client has read holds the answers to the first requests, in request order. */
  ghost predicate ReadInOrder(history: seq<Message>, requests: nat, read: seq<HttpResponse.Response>) {
    var tags := FinalTags(history);
    && |read| <= |tags| <= requests
    && forall n :: 0 <= n < |read| ==>
         IsFinal(tags[n]) && tags[n].request == n && read[n] == tags[n].response
  }

  lemma HistoryInOrder(history: seq<Message>, requests: nat, wire: string)
    requires Numbered(history, requests) && FinalCount(history) <= requests && AllHttp(history)
    requires wire <= C.Text(history)
    ensures ReadInOrder(history, requests, Finals(HttpResponse.ReadAll(wire)))
  {
    hide Numbered, FinalTags, Finals, HttpResponse.ReadAll, HttpResponse.Stream, FinalCount, C.Text,
      HttpResponse.Serialized, Responses, HttpResponse.SelfDelimiting, HttpResponse.AllSelfDelimiting, AllHttp;
    NumberedTexts(history, requests);
    TextIsStream(history);
    HttpResponse.PartialStreamReadBack(Responses(history), wire);
    FinalsAnswerInOrder(history, requests);
    FinalsAreFinalTags(history, requests);
    FinalsOfPrefix(HttpResponse.ReadAll(wire), Responses(history));
    TagResponses(FinalTags(history));
  }

  lemma TagResponses(tags: seq<Tag>)
    requires AllFinal(tags)
    ensures forall n :: 0 <= n < |tags| ==> IsFinal(tags[n]) && ResponsesOf(tags)[n] == tags[n].response
  {
  }

  /**
   In every run of an HTTP connection, at any moment: a client that decodes what has reached it
   and drops the 100 responses holds the answers to the first requests, whole, in request order
   and without gap; no response in the history answers a request that was not made.
   */
  lemma ResponsesInRequestOrder(moves: seq<Move>)
    requires Inv(Fresh(false)) && ValidRun(Fresh(false), moves) && HttpMoves(moves)
    ensures var s := Exec(Fresh(false), moves);
            ReadInOrder(s.ctl.history, |s.requests|, Finals(HttpResponse.ReadAll(s.ctl.wire)))
  {
    hide Inv, C.Inv, Numbered, ReadInOrder, Finals, HttpResponse.ReadAll, C.Text, Exec, ValidRun, HttpMoves;
    var s := Exec(Fresh(false), moves);
    assert HttpSession(Fresh(false));
    HttpRun(Fresh(false), moves);
    AnswersNumbered(s);
    C.WireIsPrefix(s.ctl);
    HistoryInOrder(s.ctl.history, |s.requests|, s.ctl.wire);
  }

  lemma AnswersNumbered(s: Session)
    requires Inv(s)
    ensures Numbered(s.ctl.history, |s.requests|) && FinalCount(s.ctl.history) <= |s.requests|
    ensures FinalCount(s.ctl.history) + (if BodyOutstanding(s) then 1 else 0) == |s.requests|
    ensures C.Inv(s.ctl)
  {
    hide Stages, Reading, Commands, Origins, Replies, Reported, UploadsSound, D.Inv, C.Inv, Numbered;
  }

  /**
   Once everything is on the wire, the client has the answer to every request, except one whose
   body is still being read.
   */
  lemma DrainedAnswersAll(moves: seq<Move>)
    requires Inv(Fresh(false)) && ValidRun(Fresh(false), moves) && HttpMoves(moves)
    requires C.Drained(Exec(Fresh(false), moves).ctl)
    ensures var s := Exec(Fresh(false), moves);
            |Finals(HttpResponse.ReadAll(s.ctl.wire))| + (if BodyOutstanding(s) then 1 else 0) == |s.requests|
  {
    hide Inv, C.Inv, C.Drained, Numbered, FinalTags, Finals, HttpResponse.ReadAll, HttpResponse.Stream, C.Text,
      Responses, Exec, ValidRun, HttpMoves, BodyOutstanding, FinalCount, AllFinal;
    var s := Exec(Fresh(false), moves);
    HttpRun(Fresh(false), moves);
    AnswersNumbered(s);
    C.DrainedWire(s.ctl);
    var h := s.ctl.history;
    NumberedTexts(h, |s.requests|);
    TextIsStream(h);
    HttpResponse.StreamReadBack(Responses(h));
    FinalsAnswerInOrder(h, |s.requests|);
    FinalsAreFinalTags(h, |s.requests|);
  }

  // ---------------------------------------------------------------- the current data socket

  /** The transfer accepted last during these moves, or the one before them. */
  function LatestAccept(moves: seq<Move>, before: Option<nat>): Option<nat> {
    if moves == [] then before
    else LatestAccept(moves[1..], if moves[0].event.Accepting? then Some(moves[0].event.id) else before)
  }

  lemma StepSetsCurrent(s: Session, env: Env, e: Event)
    requires Defined(s) && Enabled(s, env, e)
    ensures Step(s, env, e).0.current == if e.Accepting? then Some(e.id) else s.current
  {
    hide PacketDefined, LineReceived, H.BodyResponse, Http, C.Next, C.Inv, D.Inv, C.Post, D.RunTask, D.Next, D.Close,
      D.Accept, Reply, LineFrame;
    if e.Line? {
      LineFrames(s, env, e.packet);
      FrameCurrent(s, LineReceived(s, env, e.packet).0);
    }
  }

  lemma StepCurrent(s: Session, m: Move)
    requires Inv(s) && Enabled(s, m.env, m.event)
    ensures After(s, m).current == if m.event.Accepting? then Some(m.event.id) else s.current
  {
    hide Inv, Enabled, Step, Defined, Stages, Reading, Answers, Commands, Origins, Replies, Reported, UploadsSound;
    InvParts(s);
    StepSetsCurrent(s, m.env, m.event);
  }

  lemma FrameCurrent(s: Session, t: Session)
    requires LineFrame(s, t)
    ensures t.current == s.current
  {
  }

  /** In every run the current data socket is that of the transfer accepted last. */
  lemma {:induction false} CurrentIsLatest(s: Session, moves: seq<Move>)
    requires Inv(s) && ValidRun(s, moves)
    ensures Exec(s, moves).current == LatestAccept(moves, s.current)
    decreases |moves|
  {
    hide Inv, Enabled, After;
    if moves != [] {
      StepCurrent(s, moves[0]);
      CurrentIsLatest(After(s, moves[0]), moves[1..]);
    }
  }

  /** A transfer that has been accepted is never accepted again. */
  ghost predicate Gone(s: Session, id: nat) {
    id < |s.origins| && id !in s.accepts
  }

  lemma StepLeavesGone(s: Session, env: Env, e: Event, id: nat)
    requires Defined(s) && Enabled(s, env, e) && Gone(s, id)
    ensures Gone(Step(s, env, e).0, id)
    ensures e.Accepting? ==> e.id != id
  {
    hide PacketDefined, LineReceived, H.BodyResponse, Http, C.Next, C.Inv, D.Inv, C.Post, D.RunTask, D.Next, D.Close,
      D.Accept, Reply, LineFrame;
    if e.Line? {
      LineFrames(s, env, e.packet);
      FrameGone(s, LineReceived(s, env, e.packet).0, id);
    }
  }

  lemma StepKeepsGone(s: Session, m: Move, id: nat)
    requires Inv(s) && Enabled(s, m.env, m.event) && Gone(s, id)
    ensures Gone(After(s, m), id)
    ensures m.event.Accepting? ==> m.event.id != id
  {
    hide Inv, Enabled, Step, Gone, Defined, Stages, Reading, Answers, Commands, Origins, Replies, Reported,
      UploadsSound;
    InvParts(s);
    StepLeavesGone(s, m.env, m.event, id);
  }

  lemma FrameGone(s: Session, t: Session, id: nat)
    requires LineFrame(s, t) && Gone(s, id)
    ensures Gone(t, id)
  {
  }

  ghost predicate NoAccept(moves: seq<Move>) {
    forall k :: 0 <= k < |moves| ==> !moves[k].event.Accepting?
  }

  lemma {:induction false} LatestIsOwnIff(s: Session, moves: seq<Move>, id: nat)
    requires Inv(s) && ValidRun(s, moves) && Gone(s, id)
    ensures LatestAccept(moves, s.current) == Some(id) <==> s.current == Some(id) && NoAccept(moves)
    decreases |moves|
  {
    hide Inv, Enabled, After, Gone;
    if moves != [] {
      StepCurrent(s, moves[0]);
      StepKeepsGone(s, moves[0], id);
      LatestIsOwnIff(After(s, moves[0]), moves[1..], id);
      assert NoAccept(moves) <==> !moves[0].event.Accepting? && NoAccept(moves[1..]) by {
        assert forall k :: 0 < k < |moves| ==> moves[k] == moves[1..][k - 1];
      }
    }
  }

  lemma SavingCloses(s: Session, env: Env, id: nat)
    requires Inv(s) && Enabled(s, env, Saving(id)) && s.current.Some?
    ensures Defined(s) && Step(s, env, Saving(id)).0.pump == D.Close(s.pump, s.current.value)
  {
    hide Inv, C.Inv, D.Inv, PacketDefined, C.Post, D.Close, Reply, Stages, Reading, Answers, Commands, Origins, Replies,
      Reported, UploadsSound;
    InvParts(s);
  }

  /**
   Saving a file closes one data socket, the current one. From the moment an upload was accepted,
   that is its own exactly if no other transfer has been accepted in between.
   */
  lemma SavingClosesOwnIff(s: Session, accepting: Move, moves: seq<Move>, id: nat, env: Env) returns (closed: nat)
    requires Inv(s) && Enabled(s, accepting.env, accepting.event) && accepting.event == Accepting(id)
    requires ValidRun(After(s, accepting), moves)
    requires Enabled(Exec(After(s, accepting), moves), env, Saving(id))
    ensures var t := Exec(After(s, accepting), moves);
            Defined(t) && Step(t, env, Saving(id)).0.pump == D.Close(t.pump, closed)
    ensures closed == id <==> NoAccept(moves)
  {
    hide Inv, Enabled, After, Gone, Step, Defined, D.Close;
    var t := After(s, accepting);
    StepCurrent(s, accepting);
    AcceptedIsGone(s, accepting, id);
    CurrentIsLatest(t, moves);
    LatestIsOwnIff(t, moves, id);
    StaysCurrent(moves, t.current);
    var u := Exec(t, moves);
    closed := u.current.value;
    SavingCloses(u, env, id);
  }

  lemma {:induction false} StaysCurrent(moves: seq<Move>, before: Option<nat>)
    requires before.Some?
    ensures LatestAccept(moves, before).Some?
  {
    if moves != [] {
      StaysCurrent(moves[1..], if moves[0].event.Accepting? then Some(moves[0].event.id) else before);
    }
  }

  lemma AcceptedIsGone(s: Session, m: Move, id: nat)
    requires Inv(s) && Enabled(s, m.env, m.event) && m.event == Accepting(id)
    ensures Gone(After(s, m), id)
  {
    hide Inv, C.Inv, D.Inv, D.Accept, PacketDefined, Stages, Reading, Answers, Commands, Origins, Replies, Reported,
      UploadsSound;
    InvParts(s);
    NoneWaitsUnissued(s, id);
  }

  lemma NoneWaitsUnissued(s: Session, id: nat)
    requires Stages(s)
    ensures id in s.accepts ==> id < |s.origins|
  {
  }
}
