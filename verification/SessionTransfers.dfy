/** Whole runs of a session seen as runs of its two pumps: delivery, draining, and the order of replies. */
module SessionTransfers {
  import opened Wrappers
  import opened Messages
  import opened SessionModel
  import opened SessionInvariants
  import opened SessionHistories
  import opened SessionRuns
  import C = ControlPump
  import D = DataPump
  import Decimal
  import F = FtpCommands

  // ---------------------------------------------------------------- the data pump's share of a run

  /** The steps of the data pump in a run of the session. */
  ghost function DataTrace(s: Session, moves: seq<Move>): seq<D.Event>
    requires Inv(s) && ValidRun(s, moves)
    decreases |moves|
  {
    if moves == [] then []
    else
      var ev := PumpEvent(s, moves[0].event);
      (if ev.Some? then [ev.value] else []) + DataTrace(After(s, moves[0]), moves[1..])
  }

  lemma AfterIsPumpStep(s: Session, m: Move)
    requires Inv(s) && Enabled(s, m.env, m.event)
    ensures D.Inv(s.pump)
    ensures var ev := PumpEvent(s, m.event);
            if ev.None? then After(s, m).pump == s.pump
            else D.Enabled(s.pump, ev.value) && After(s, m).pump == D.Next(s.pump, ev.value)
  {
    hide Inv, Enabled, Step, PumpEvent, D.Next, D.Enabled, D.Inv, C.Inv;
    InvParts(s);
    StepIsPumpStep(s, m.env, m.event);
  }

  lemma PumpOf(s: Session)
    requires Inv(s)
    ensures D.Inv(s.pump) && C.Inv(s.ctl)
  {
    hide D.Inv, C.Inv, Stages, Reading, Answers, Commands, Origins, Replies, Reported, UploadsSound;
  }

  /** Every run of the session is a run of its data pump. */
  lemma {:induction false} DataTraceIsRun(s: Session, moves: seq<Move>)
    requires Inv(s) && ValidRun(s, moves)
    ensures D.Inv(s.pump) && D.ValidRun(s.pump, DataTrace(s, moves))
    ensures D.Exec(s.pump, DataTrace(s, moves)) == Exec(s, moves).pump
    decreases |moves|
  {
    hide Inv, Enabled, After, PumpEvent, D.Next, D.Enabled, D.Inv;
    PumpOf(s);
    if moves != [] {
      AfterIsPumpStep(s, moves[0]);
      DataTraceIsRun(After(s, moves[0]), moves[1..]);
      var ev := PumpEvent(s, moves[0].event);
      var rest := DataTrace(After(s, moves[0]), moves[1..]);
      if ev.Some? {
        assert ([ev.value] + rest)[1..] == rest;
      } else {
        assert [] + rest == rest;
      }
    }
  }

  // ---------------------------------------------------------------- draining

  /** The steps the two pumps take by themselves, without error. */
  ghost predicate PumpMove(e: Event) {
    || (e.Control? && C.Internal(e.ev))
    || e.DataTasking?
    || (e.Data? && D.Internal(e.step))
  }

  /** A bound on the pump steps left; the factor pays for the 226 that a popped terminator posts. */
  function Measure(s: Session): int {
    C.Measure(s.ctl) + 13 * D.Measure(s.pump)
  }

  /** No write has failed, and downloads have not overlapped. */
  ghost predicate Sound(s: Session) {
    !s.ctl.failed && D.Solo(s.pump)
  }

  lemma DoneText()
    ensures forall tag :: |Reply(226, "Done", tag).text| == 10
  {
    assert Decimal.ToString(2) == "2";
    assert Decimal.ToString(22) == "22";
    assert Decimal.ToString(226) == "226";
  }

  lemma PostMeasure(p: C.Pump, m: Message)
    ensures C.Measure(C.Post(p, m)) == C.Measure(p) + 2 + |m.text|
  {
    C.TextAppend(p.posted, [m]);
    assert C.Text([m]) == m.text;
  }

  lemma DataTaskPosts(s: Session, env: Env)
    requires Defined(s) && Enabled(s, env, DataTasking)
    ensures s.pump.tasks != [] && PumpEvent(s, DataTasking) == Some(D.Running)
    ensures var m := Posted(s, env, DataTasking);
            m.None? || m == Some(Reply(226, "Done", Finished(s.pump.tasks[0].sock)))
  {
    hide D.Inv, C.Inv, Reply;
  }

  lemma AfterIsStep(s: Session, m: Move)
    requires Inv(s) && Enabled(s, m.env, m.event)
    ensures Defined(s) && After(s, m) == Step(s, m.env, m.event).0
  {
    hide Inv, Enabled, Step, Defined;
    InvParts(s);
  }

  lemma DataTaskDecreases(s: Session, m: Move)
    requires Inv(s) && Enabled(s, m.env, m.event) && m.event.DataTasking?
    ensures Measure(After(s, m)) < Measure(s)
    ensures After(s, m).ctl.failed == s.ctl.failed
  {
    hide Inv, Enabled, Defined, Stages, D.Inv, D.Measure, C.Measure, D.Next, D.Enabled, C.Inv, D.Solo, Reply,
      D.RunTask, Posted, PumpEvent, Step, After;
    InvParts(s);
    AfterIsStep(s, m);
    PumpOf(s);
    DataTaskPosts(s, m.env);
    StepPosts(s, m.env, m.event);
    StepIsPumpStep(s, m.env, m.event);
    D.MeasureDecreases(s.pump, D.Running);
    DoneText();
    if Posted(s, m.env, m.event).Some? {
      PostMeasure(s.ctl, Posted(s, m.env, m.event).value);
    }
  }

  lemma OtherMoveDecreases(s: Session, m: Move)
    requires Inv(s) && Enabled(s, m.env, m.event) && PumpMove(m.event) && !m.event.DataTasking?
    ensures Measure(After(s, m)) < Measure(s)
    ensures After(s, m).ctl.failed == s.ctl.failed
  {
    hide Inv, D.Inv, D.Measure, C.Measure, D.Next, C.Next, C.Inv, D.Solo, Posted, Step, PacketDefined, C.Internal,
      D.Internal;
    InvParts(s);
    StepPosts(s, m.env, m.event);
    StepIsPumpStep(s, m.env, m.event);
    NothingPosted(s, m.env, m.event);
    if m.event.Control? {
      C.MeasureDecreases(s.ctl, m.event.ev);
    } else {
      D.MeasureDecreases(s.pump, m.event.step);
    }
  }

  lemma NothingPosted(s: Session, env: Env, e: Event)
    requires Defined(s) && Enabled(s, env, e) && PumpMove(e) && !e.DataTasking?
    ensures Posted(s, env, e) == None
    ensures PumpEvent(s, e) == if e.Data? then Some(e.step) else None
  {
    hide D.Inv, C.Inv, PacketDefined;
  }

  lemma TraceEvent(s: Session, e: Event)
    requires PumpMove(e) && PumpEvent(s, e).Some?
    ensures D.Internal(PumpEvent(s, e).value)
  {
  }

  lemma InternalIsSolo(p: D.Pump, e: D.Event)
    requires D.Inv(p) && D.Solo(p) && D.Enabled(p, e) && D.Internal(e)
    ensures D.Solo(D.Next(p, e)) && D.Next(p, e).accepted == p.accepted
  {
    hide D.Inv, D.Solo, D.Next;
    D.SoloStepKeeps(p, e);
    D.NextKeeps(p, e);
    InternalAccepts(p, e);
  }

  lemma InternalAccepts(p: D.Pump, e: D.Event)
    requires D.Inv(p) && D.Enabled(p, e) && D.Internal(e)
    ensures D.Next(p, e).accepted == p.accepted
  {
    hide D.Delivery, D.Pending, D.Rest, D.Ahead;
  }

  lemma PumpMoveDecreases(s: Session, m: Move)
    requires Inv(s) && Sound(s) && Enabled(s, m.env, m.event) && PumpMove(m.event)
    ensures var t := After(s, m);
            && Measure(t) < Measure(s) && Sound(t) && t.pump.accepted == s.pump.accepted
  {
    hide Inv, Enabled, After, D.Inv, Measure, PumpEvent, PumpMove, D.Solo, D.Internal, D.Next;
    if m.event.DataTasking? {
      DataTaskDecreases(s, m);
    } else {
      OtherMoveDecreases(s, m);
    }
    AfterIsPumpStep(s, m);
    if PumpEvent(s, m.event).Some? {
      TraceEvent(s, m.event);
      InternalIsSolo(s.pump, PumpEvent(s, m.event).value);
    }
  }

  lemma MeasureNonNegative(s: Session)
    requires Inv(s)
    ensures 0 <= Measure(s)
  {
    hide Inv, C.Inv, D.Inv, C.Measure, D.Measure;
    PumpOf(s);
    C.MeasureNonNegative(s.ctl);
    D.MeasureNonNegative(s.pump);
  }

  ghost predicate PumpMoves(moves: seq<Move>) {
    forall k :: 0 <= k < |moves| ==> PumpMove(moves[k].event)
  }

  lemma {:induction false} PumpRunBounded(s: Session, moves: seq<Move>)
    requires Inv(s) && Sound(s) && ValidRun(s, moves) && PumpMoves(moves)
    ensures |moves| <= Measure(s)
    ensures Sound(Exec(s, moves)) && Exec(s, moves).pump.accepted == s.pump.accepted
    decreases |moves|
  {
    hide Inv, Sound, Measure, Enabled, After, PumpMove;
    if moves == [] {
      MeasureNonNegative(s);
    } else {
      PumpMoveDecreases(s, moves[0]);
      PumpRunBounded(After(s, moves[0]), moves[1..]);
    }
  }

  /** No step of the pumps is possible. */
  ghost predicate Resting(s: Session) {
    forall env, e :: PumpMove(e) ==> !Enabled(s, env, e)
  }

  lemma RestingPumps(s: Session)
    requires Inv(s) && Resting(s)
    ensures forall ev :: C.Internal(ev) ==> !C.Enabled(s.ctl, ev)
    ensures forall ev :: D.Internal(ev) ==> !D.Enabled(s.pump, ev)
  {
    hide Inv, C.Enabled, PacketDefined;
    var env := Env(F.Env(map[], map[], [], None, false), false);
    forall ev | C.Internal(ev) ensures !C.Enabled(s.ctl, ev) {
      assert !Enabled(s, env, Control(ev));
    }
    forall ev | D.Internal(ev) ensures !D.Enabled(s.pump, ev) {
      assert !Enabled(s, env, Data(ev));
      assert !Enabled(s, env, DataTasking);
    }
  }

  /** So far no control write has failed, and the downloads met no error and did not overlap. */
  ghost predicate ErrorFree(s: Session, moves: seq<Move>)
    requires Inv(s) && ValidRun(s, moves)
  {
    hide Inv;
    DataTraceIsRun(s, moves);
    !Exec(s, moves).ctl.failed && D.SoloRun(s.pump, DataTrace(s, moves))
  }

  /**
   Both pumps are empty, every message is on the wire, every download was delivered, and each was
   answered there by one 226 of its own, in order and behind its 150.
   */
  ghost predicate AllDone(s: Session) {
    && C.Drained(s.ctl) && s.ctl.wire == C.Text(s.ctl.history)
    && D.AllDelivered(s.pump)
    && ReportedInOrder(s.ctl.history, D.Ids(s.pump.accepted))
  }

  lemma RestingIsDone(s: Session)
    requires Inv(s) && Sound(s) && Resting(s)
    ensures AllDone(s)
  {
    hide Inv, C.Inv, D.Inv, Resting, C.Enabled, D.Enabled, C.Internal, D.Internal, C.Drained, D.Quiet, D.AllDelivered,
      C.Text, D.Solo, ReportedInOrder;
    PumpOf(s);
    CompletedAreReported(s);
    RestingPumps(s);
    D.SocketOpen(s.pump);
    if C.Drained(s.ctl) {
      C.DrainedWire(s.ctl);
    } else {
      var e := C.MovesUntilDrained(s.ctl);
    }
    if D.Quiet(s.pump) {
      D.QuietIsDelivered(s.pump);
      DeliveredAreCompleted(s.pump);
    } else {
      var e := D.MovesUntilQuiet(s.pump);
    }
  }

  /**
   A session whose control writes have not failed and whose downloads have not overlapped comes
   to rest by itself: the pumps can take at most `Measure` steps, in any interleaving, and when
   none is left every message posted so far is on the control wire, and every data socket has
   received its whole file, is closed, and was answered by one 226.
   */
  lemma PumpsDrain(before: seq<Move>, after: seq<Move>, greet: bool)
    requires Inv(Fresh(greet)) && ValidRun(Fresh(greet), before) && ErrorFree(Fresh(greet), before)
    requires ValidRun(Exec(Fresh(greet), before), after) && PumpMoves(after)
    ensures var s := Exec(Fresh(greet), before);
            var t := Exec(s, after);
            && |after| <= Measure(s)
            && t.pump.accepted == s.pump.accepted
            && (Resting(t) ==> AllDone(t))
  {
    hide Inv, D.Inv, C.Inv, Measure, Resting, AllDone, D.SoloRun, D.ValidRun, D.Exec, DataTrace, ValidRun, Exec,
      PumpMoves, D.Solo;
    var start := Fresh(greet);
    var s := Exec(start, before);
    FreshPump(greet);
    DataTraceIsRun(start, before);
    D.SoloRunKeeps(D.Empty, DataTrace(start, before));
    PumpRunBounded(s, after);
    if Resting(Exec(s, after)) {
      RestingIsDone(Exec(s, after));
    }
  }

  lemma FreshPump(greet: bool)
    ensures Fresh(greet).pump == D.Empty && D.Solo(D.Empty)
  {
  }

  // ---------------------------------------------------------------- order of the replies of a transfer

  /** Message j is the only one with this tag. */
  ghost predicate OnlyOne(history: seq<Message>, tag: Tag, j: nat) {
    && j < |history| && history[j].tag == tag
    && forall i :: 0 <= i < |history| && i != j ==> history[i].tag != tag
  }

  lemma {:induction false} CountedOnce(history: seq<Message>, tag: Tag) returns (j: nat)
    requires Count(history, tag) == 1
    ensures OnlyOne(history, tag, j)
  {
    var n := |history| - 1;
    var before := history[..n];
    assert forall i :: 0 <= i < n ==> before[i] == history[i];
    if history[n].tag == tag {
      NotCounted(before, tag);
      j := n;
    } else {
      j := CountedOnce(before, tag);
    }
  }

  lemma {:induction false} NotCounted(history: seq<Message>, tag: Tag)
    requires Count(history, tag) == 0
    ensures forall i :: 0 <= i < |history| ==> history[i].tag != tag
  {
    if history != [] {
      var n := |history| - 1;
      NotCounted(history[..n], tag);
      assert forall i :: 0 <= i < n ==> history[..n][i] == history[i];
    }
  }

  lemma {:induction false} CountPrefix(history: seq<Message>, n: nat, tag: Tag)
    requires n <= |history|
    ensures Count(history[..n], tag) <= Count(history, tag)
    decreases |history|
  {
    if n < |history| {
      CountPrefix(history[..|history| - 1], n, tag);
      assert history[..|history| - 1][..n] == history[..n];
    } else {
      assert history[..n] == history;
    }
  }

  /**
   On the wire: each message written whole that begins like a 226, 450 or 426 ends a transfer whose
   one 150 was written before it, and nothing else written announces or ends that transfer.
   */
  lemma AnnouncedBeforeEnded(s: Session, k: nat) returns (j: nat, t: nat)
    requires Inv(s) && k < |s.ctl.sent| && EndsSome(s.ctl.sent[k].text)
    ensures j < k && Announces(s.ctl.sent[j].text)
    ensures Ends(s.ctl.sent[k].tag, t) && OnlyOne(s.ctl.sent, Opening(t), j)
    ensures forall i :: 0 <= i < |s.ctl.sent| && i != k ==> !Ends(s.ctl.sent[i].tag, t)
  {
    hide Inv, Count, EndCount, UnderWay, Replies, Spelled, EndsSome, Announces, OnlyOne;
    InvParts(s);
    var h, sent := s.ctl.history, s.ctl.sent;
    SentIsPrefix(s.ctl);
    assert h[k] == sent[k];
    t := EndedTransfer(s, k);
    EndedOnce(s, k, t);
    j := CountedOnce(h[..k], Opening(t));
    OpenedThere(h, k, t, j);
    OnlyOneInPrefix(h, |sent|, Opening(t), j);
    AnnouncementIsSpelled(s, j, t);
    assert h[..|sent|] == sent;
    OneEnd(sent, h, k, t);
  }

  lemma EndedTransfer(s: Session, k: nat) returns (t: nat)
    requires Replies(s) && k < |s.ctl.history| && EndsSome(s.ctl.history[k].text)
    ensures Ends(s.ctl.history[k].tag, t)
  {
    hide HasCode, Count, EndCount, UnderWay;
    assert Spelled(s.ctl.history[k]);
    t := s.ctl.history[k].tag.transfer;
  }

  lemma AnnouncementIsSpelled(s: Session, j: nat, t: nat)
    requires Replies(s) && j < |s.ctl.history| && s.ctl.history[j].tag == Opening(t)
    ensures Announces(s.ctl.history[j].text)
  {
    hide HasCode, Count, EndCount, UnderWay;
    assert Spelled(s.ctl.history[j]);
  }

  lemma OpenedThere(history: seq<Message>, k: nat, t: nat, j: nat)
    requires k <= |history| && OnlyOne(history[..k], Opening(t), j) && Count(history, Opening(t)) == 1
    ensures j < k && OnlyOne(history, Opening(t), j)
  {
    hide Count;
    var only := CountedOnce(history, Opening(t));
    assert history[j] == history[..k][j];
  }

  lemma OnlyOneInPrefix(history: seq<Message>, n: nat, tag: Tag, j: nat)
    requires n <= |history| && OnlyOne(history, tag, j) && j < n
    ensures OnlyOne(history[..n], tag, j)
  {
  }

  /** A transfer that is ended once is ended by this message alone. */
  lemma OneEnd(sent: seq<Message>, history: seq<Message>, k: nat, t: nat)
    requires sent <= history && k < |sent| && Ends(sent[k].tag, t) && EndCount(history, t) == 1
    ensures forall i :: 0 <= i < |sent| && i != k ==> !Ends(sent[i].tag, t)
  {
    hide Count;
    CountOccurrence(history, k, history[k].tag);
    if Count(history, Finished(t)) == 1 {
      var only := CountedOnce(history, Finished(t));
      NotCounted(history, Aborted(t));
    } else {
      var only := CountedOnce(history, Aborted(t));
      NotCounted(history, Finished(t));
    }
    assert forall i :: 0 <= i < |sent| ==> sent[i] == history[i];
  }

  // ---------------------------------------------------------------- the 226 of each download

  /** Message k is the 226 of this transfer; its one 150 comes before it, and no other message ends it. */
  ghost predicate ReportAt(history: seq<Message>, t: nat, k: nat) {
    && k < |history| && history[k] == DoneReply(t)
    && (exists j: nat :: j < k && OnlyOne(history, Opening(t), j))
    && (forall i :: 0 <= i < |history| && i != k ==> !Ends(history[i].tag, t))
  }

  ghost predicate ReportsAt(history: seq<Message>, ids: seq<nat>, at: seq<nat>) {
    && |at| == |ids|
    && (forall i :: 0 <= i < |ids| ==> ReportAt(history, ids[i], at[i]))
    && (forall i, j :: 0 <= i < j < |at| ==> at[i] < at[j])
  }

  /** Each of these downloads has one 226, behind its 150, and the 226s come in this order. */
  ghost predicate ReportedInOrder(history: seq<Message>, ids: seq<nat>) {
    exists at: seq<nat> :: ReportsAt(history, ids, at)
  }

  /** Message at[i] is the 226 of transfer ids[i], and these come in order. */
  ghost predicate DoneAt(history: seq<Message>, ids: seq<nat>, at: seq<nat>) {
    && |at| == |ids|
    && (forall i :: 0 <= i < |at| ==> at[i] < |history| && history[at[i]] == DoneReply(ids[i]))
    && (forall i, j :: 0 <= i < j < |at| ==> at[i] < at[j])
  }

  lemma DoneAtLonger(history: seq<Message>, ids: seq<nat>, at: seq<nat>, m: Message)
    requires DoneAt(history, ids, at)
    ensures DoneAt(history + [m], ids, at)
    ensures IsDone(m) ==> DoneAt(history + [m], ids + [m.tag.transfer], at + [|history|])
  {
    hide DoneReply;
  }

  /** Where the reports are. */
  lemma {:induction false} DonesAt(history: seq<Message>) returns (at: seq<nat>)
    ensures DoneAt(history, Dones(history), at)
  {
    hide DoneAt, IsDone;
    if history == [] {
      at := [];
      NoneDone();
    } else {
      var n := |history| - 1;
      at := DonesAt(history[..n]);
      DoneAtLonger(history[..n], Dones(history[..n]), at, history[n]);
      assert history[..n] + [history[n]] == history;
      if IsDone(history[n]) {
        at := at + [n];
      } else {
        assert Dones(history) == Dones(history[..n]);
      }
    }
  }

  lemma NoneDone()
    ensures DoneAt([], [], [])
  {
  }

  lemma DoneEnds(t: nat)
    ensures Ends(DoneReply(t).tag, t) && EndsSome(DoneReply(t).text)
  {
    hide HasCode, Decimal.ToString;
    ReplyHasItsCode(226, "Done", Finished(t));
  }

  /** An ending reply of a transfer has its one 150 before it, and no other ends that transfer. */
  lemma EndIsSole(s: Session, k: nat, t: nat) returns (j: nat)
    requires Replies(s) && k < |s.ctl.history| && Ends(s.ctl.history[k].tag, t)
    ensures j < k && OnlyOne(s.ctl.history, Opening(t), j)
    ensures forall i :: 0 <= i < |s.ctl.history| && i != k ==> !Ends(s.ctl.history[i].tag, t)
  {
    hide Count, EndCount, UnderWay, Replies, OnlyOne;
    var h := s.ctl.history;
    EndedOnce(s, k, t);
    j := CountedOnce(h[..k], Opening(t));
    OpenedThere(h, k, t, j);
    OneEnd(h, h, k, t);
  }

  lemma ReportIsAt(s: Session, t: nat, k: nat)
    requires Inv(s) && k < |s.ctl.history| && s.ctl.history[k] == DoneReply(t)
    ensures ReportAt(s.ctl.history, t, k)
  {
    hide Inv, Replies, OnlyOne, DoneReply, EndsSome, Defined, Stages, Reading, Answers, Commands, Origins, Reported,
      UploadsSound;
    InvParts(s);
    DoneEnds(t);
    var j := EndIsSole(s, k, t);
  }

  /** In every state the downloads the pump has completed were each reported by one 226, in order. */
  lemma CompletedAreReported(s: Session)
    requires Inv(s)
    ensures ReportedInOrder(s.ctl.history, s.pump.completed)
  {
    hide Inv, ReportAt, DoneReply, Dones;
    InvParts(s);
    var at := DonesAt(s.ctl.history);
    forall i | 0 <= i < |at| ensures ReportAt(s.ctl.history, s.pump.completed[i], at[i]) {
      ReportIsAt(s, s.pump.completed[i], at[i]);
    }
    assert ReportsAt(s.ctl.history, s.pump.completed, at);
  }

  lemma DeliveredAreCompleted(p: D.Pump)
    requires D.AllDelivered(p)
    ensures p.completed == D.Ids(p.accepted)
  {
    hide D.Quiet, D.Got;
  }

  lemma SentIsPrefix(p: C.Pump)
    requires C.Inv(p)
    ensures p.sent <= p.history
  {
  }

  lemma EndedOnce(s: Session, k: nat, t: nat)
    requires Replies(s) && k < |s.ctl.history| && Ends(s.ctl.history[k].tag, t)
    ensures Count(s.ctl.history[..k], Opening(t)) == 1
    ensures Count(s.ctl.history, Opening(t)) == 1 && EndCount(s.ctl.history, t) == 1
  {
    hide UnderWay, Count;
    var h := s.ctl.history;
    CountPrefix(h, k, Opening(t));
    CountOccurrence(h, k, h[k].tag);
    assert EndCount(h, t) == if t < |s.origins| && !UnderWay(s, t) then 1 else 0;
  }

  lemma {:induction false} CountOccurrence(history: seq<Message>, k: nat, tag: Tag)
    requires k < |history| && history[k].tag == tag
    ensures Count(history, tag) >= 1
  {
    if k < |history| - 1 {
      CountOccurrence(history[..|history| - 1], k, tag);
    }
  }

  // ---------------------------------------------------------------- counting replies on the wire

  function Openings(messages: seq<Message>): nat {
    if messages == [] then 0
    else Openings(messages[..|messages| - 1]) + if Announces(messages[|messages| - 1].text) then 1 else 0
  }

  function Endings(messages: seq<Message>): nat {
    if messages == [] then 0
    else Endings(messages[..|messages| - 1]) + if EndsSome(messages[|messages| - 1].text) then 1 else 0
  }

  function Opened(messages: seq<Message>): set<nat> {
    if messages == [] then {}
    else
      var last := messages[|messages| - 1].tag;
      Opened(messages[..|messages| - 1]) + if last.Opening? then {last.transfer} else {}
  }

  function Ended(messages: seq<Message>): set<nat> {
    if messages == [] then {}
    else
      var last := messages[|messages| - 1].tag;
      Ended(messages[..|messages| - 1]) + if last.Finished? || last.Aborted? then {last.transfer} else {}
  }

  /** Texts and tags agree, and no transfer is announced or ended twice. */
  ghost predicate Orderly(messages: seq<Message>) {
    && (forall k :: 0 <= k < |messages| ==> Spelled(messages[k]))
    && (forall t: nat :: Count(messages, Opening(t)) <= 1 && EndCount(messages, t) <= 1)
  }

  lemma OrderlyPrefix(messages: seq<Message>, n: nat)
    requires Orderly(messages) && n <= |messages|
    ensures Orderly(messages[..n])
  {
    hide Count, Spelled;
    forall t: nat ensures Count(messages[..n], Opening(t)) <= 1 && EndCount(messages[..n], t) <= 1 {
      CountPrefix(messages, n, Opening(t));
      CountPrefix(messages, n, Finished(t));
      CountPrefix(messages, n, Aborted(t));
      assert EndCount(messages, t) <= 1;
    }
  }

  lemma {:induction false} OpenedIff(messages: seq<Message>, t: nat)
    ensures t in Opened(messages) <==> Count(messages, Opening(t)) > 0
    ensures t in Ended(messages) <==> EndCount(messages, t) > 0
  {
    if messages != [] {
      OpenedIff(messages[..|messages| - 1], t);
    }
  }

  /** Each text counted belongs to a transfer of its own. */
  lemma {:induction false} CountsAreSizes(messages: seq<Message>)
    requires Orderly(messages)
    ensures |Opened(messages)| == Openings(messages) && |Ended(messages)| == Endings(messages)
  {
    hide HasCode, Count;
    if messages != [] {
      var n := |messages| - 1;
      OrderlyPrefix(messages, n);
      CountsAreSizes(messages[..n]);
      assert Spelled(messages[n]);
      NewTransfer(messages);
    }
  }

  lemma NewTransfer(messages: seq<Message>)
    requires Orderly(messages) && messages != []
    ensures var n := |messages| - 1;
            var last := messages[n].tag;
            && (last.Opening? ==> last.transfer !in Opened(messages[..n]))
            && (last.Finished? || last.Aborted? ==> last.transfer !in Ended(messages[..n]))
  {
    hide Opened, Ended, Spelled;
    var n := |messages| - 1;
    var last := messages[n].tag;
    if last.Opening? || last.Finished? || last.Aborted? {
      OpenedIff(messages[..n], last.transfer);
      assert Count(messages, Opening(last.transfer)) <= 1 && EndCount(messages, last.transfer) <= 1;
    }
  }

  /** At no moment have more 226, 450 and 426 replies been written than 150 replies. */
  lemma EndingsNeverExceed(s: Session, n: nat)
    requires Inv(s) && n <= |s.ctl.sent|
    ensures Endings(s.ctl.sent[..n]) <= Openings(s.ctl.sent[..n])
  {
    hide Inv, Opened, Ended, Count, EndCount, Orderly, Replies;
    InvParts(s);
    SentIsPrefix(s.ctl);
    var part := s.ctl.history[..n];
    assert part == s.ctl.sent[..n];
    RepliesOrderly(s);
    OrderlyPrefix(s.ctl.history, n);
    CountsAreSizes(part);
    EndedAreOpened(s, n);
    SubsetSize(Ended(part), Opened(part));
  }

  lemma RepliesOrderly(s: Session)
    requires Replies(s)
    ensures Orderly(s.ctl.history)
  {
    hide Count, UnderWay, Spelled;
  }

  lemma EndedAreOpened(s: Session, n: nat)
    requires Replies(s) && n <= |s.ctl.history|
    ensures Ended(s.ctl.history[..n]) <= Opened(s.ctl.history[..n])
  {
    hide Opened, Ended, Count, EndCount, UnderWay, Spelled;
    var part := s.ctl.history[..n];
    forall t | t in Ended(part) ensures t in Opened(part) {
      OpenedIff(part, t);
      var k := EndAt(part, t);
      assert part[k] == s.ctl.history[k] && part[..k] == s.ctl.history[..k];
      CountPrefix(part, k, Opening(t));
    }
  }

  lemma EndAt(messages: seq<Message>, t: nat) returns (k: nat)
    requires EndCount(messages, t) > 0
    ensures k < |messages| && Ends(messages[k].tag, t)
  {
    hide Count;
    if Count(messages, Finished(t)) > 0 {
      k := Occurrence(messages, Finished(t));
    } else {
      k := Occurrence(messages, Aborted(t));
    }
  }

  lemma {:induction false} Occurrence(messages: seq<Message>, tag: Tag) returns (k: nat)
    requires Count(messages, tag) > 0
    ensures k < |messages| && messages[k].tag == tag
  {
    k := |messages| - 1;
    if messages[k].tag != tag {
      k := Occurrence(messages[..k], tag);
    }
  }

  lemma {:induction false} SubsetSize(a: set<nat>, b: set<nat>)
    requires a <= b
    ensures |a| <= |b|
  {
    if x :| x in a {
      SubsetSize(a - {x}, b - {x});
    }
  }
}
