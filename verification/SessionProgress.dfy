/**
 A session finishes by itself what it has been asked for: a measure over both pumps, the uploads
 and the posted tasks falls with every step it can take without new input.
 */
module SessionProgress {
  import opened Wrappers
  import opened Messages
  import opened SessionModel
  import opened SessionInvariants
  import opened SessionHistories
  import opened SessionRuns
  import C = ControlPump
  import D = DataPump
  import Decimal
  import F = FtpCommands
  import T = SessionTransfers
  import Up = Upload

  /** The steps a session takes by itself, without error and without new input. */
  ghost predicate OwnMove(e: Event) {
    || T.PumpMove(e)
    || (e.UploadStep? && e.move.Completing?)
    || e.Saving? || e.ClosingTask?
  }

  /** The reads and the saving an upload still needs; 22 of the 23 pay for the reply. */
  function Work(u: Up.Upload): nat {
    match u.phase
    case Reading => 23 + Up.ReadsLeft(if u.consumed <= |u.stream| then |u.stream| - u.consumed else 0)
    case SavePosted => 23
    case Saved => 0
  }

  /** The work of the uploads numbered below n. */
  function Sum(uploads: map<nat, Up.Upload>, n: nat): nat {
    if n == 0 then 0 else Sum(uploads, n - 1) + if n - 1 in uploads then Work(uploads[n - 1]) else 0
  }

  function Progress(s: Session): int {
    T.Measure(s) + Sum(s.uploads, |s.origins|) + s.closes
  }

  lemma {:induction false} SumUpdate(uploads: map<nat, Up.Upload>, id: nat, u: Up.Upload, n: nat)
    requires id in uploads
    ensures Sum(uploads[id := u], n) == Sum(uploads, n) + if id < n then Work(u) - Work(uploads[id]) else 0
  {
    hide Work;
    if n > 0 {
      SumUpdate(uploads, id, u, n - 1);
    }
  }

  lemma ReadLowersWork(u: Up.Upload)
    requires Up.Inv(u) && Up.Readable(u)
    ensures Work(Up.Read(u)) < Work(u)
  {
  }

  /** What stays as it is while a session works by itself. */
  ghost predicate SameAsked(s: Session, t: Session) {
    && t.origins == s.origins && t.ctl.failed == s.ctl.failed
    && t.uploads.Keys == s.uploads.Keys
    && (forall id :: id in s.uploads.Keys ==>
          t.uploads[id].stream == s.uploads[id].stream && t.uploads[id].ended == s.uploads[id].ended)
  }

  lemma PumpLeavesUploads(s: Session, env: Env, e: Event)
    requires Defined(s) && Enabled(s, env, e) && T.PumpMove(e)
    ensures var t := Step(s, env, e).0;
            t.uploads == s.uploads && t.closes == s.closes && t.origins == s.origins
  {
    hide C.Inv, D.Inv, C.Next, D.Next, C.Post, D.RunTask, Reply, C.Enabled, D.Enabled, C.Internal, D.Internal;
  }

  lemma PumpMoveLowers(s: Session, m: Move)
    requires Inv(s) && Enabled(s, m.env, m.event) && T.PumpMove(m.event)
    ensures Progress(After(s, m)) < Progress(s) && SameAsked(s, After(s, m))
  {
    hide Inv, Enabled, Defined, Step, After, T.Measure, T.PumpMove, Sum;
    if m.event.DataTasking? {
      T.DataTaskDecreases(s, m);
    } else {
      T.OtherMoveDecreases(s, m);
    }
    T.AfterIsStep(s, m);
    PumpLeavesUploads(s, m.env, m.event);
  }

  lemma ReadIsStep(s: Session, env: Env, id: nat)
    requires Defined(s) && Enabled(s, env, UploadStep(id, Up.Completing))
    ensures id in s.uploads && Up.Readable(s.uploads[id])
    ensures Step(s, env, UploadStep(id, Up.Completing)).0 == s.(uploads := s.uploads[id := Up.Read(s.uploads[id])])
  {
    hide C.Inv, D.Inv, PacketDefined;
  }

  /** The number and the soundness of an upload. */
  lemma UploadIsSound(s: Session, id: nat)
    requires Inv(s) && id in s.uploads
    ensures id < |s.origins| && Up.Inv(s.uploads[id])
  {
    hide Inv, IsDownload, Up.Inv, Reading, Answers, Commands, Origins, Replies, Reported, Defined;
    InvParts(s);
  }

  lemma ReadLowers(s: Session, m: Move, id: nat)
    requires Inv(s) && Enabled(s, m.env, m.event) && m.event == UploadStep(id, Up.Completing)
    ensures Progress(After(s, m)) < Progress(s) && SameAsked(s, After(s, m))
  {
    hide Inv, Enabled, Defined, Step, After, C.Measure, D.Measure, Sum, Work, Up.Readable, Up.Inv;
    T.AfterIsStep(s, m);
    ReadIsStep(s, m.env, id);
    UploadIsSound(s, id);
    ReadLowersWork(s.uploads[id]);
    SumUpdate(s.uploads, id, Up.Read(s.uploads[id]), |s.origins|);
  }

  lemma SavedTexts(id: nat)
    ensures |Reply(226, "File saved", Finished(id)).text| == 16
    ensures |Reply(450, "File not saved", Finished(id)).text| == 20
  {
    assert Decimal.ToString(2) == "2" && Decimal.ToString(4) == "4";
    assert Decimal.ToString(22) == "22" && Decimal.ToString(45) == "45";
    assert Decimal.ToString(226) == "226" && Decimal.ToString(450) == "450";
  }

  lemma SaveIsStep(s: Session, env: Env, id: nat)
    requires Defined(s) && Enabled(s, env, Saving(id))
    ensures id in s.uploads && s.uploads[id].phase == Up.SavePosted
    ensures var t := Step(s, env, Saving(id)).0;
            && t.uploads == s.uploads[id := Up.Save(s.uploads[id])]
            && t.origins == s.origins && t.closes == s.closes
            && t.ctl == C.Post(s.ctl, if s.uploads[id].path !in env.ftp.files
                                      then Reply(226, "File saved", Finished(id))
                                      else Reply(450, "File not saved", Finished(id)))
            && (t.pump == s.pump || (s.current.Some? && t.pump == D.Close(s.pump, s.current.value)))
  {
    hide C.Inv, D.Inv, PacketDefined, C.Post, D.Close, Reply;
  }

  lemma ClosingKeepsMeasure(p: D.Pump, id: nat)
    ensures D.Measure(D.Close(p, id)) == D.Measure(p)
  {
  }

  lemma SaveLowers(s: Session, m: Move, id: nat)
    requires Inv(s) && Enabled(s, m.env, m.event) && m.event == Saving(id)
    ensures Progress(After(s, m)) < Progress(s) && SameAsked(s, After(s, m))
  {
    hide Inv, Enabled, Defined, Step, After, C.Measure, D.Measure, Sum, Reply, D.Close;
    T.AfterIsStep(s, m);
    SaveIsStep(s, m.env, id);
    UploadIsSound(s, id);
    SumUpdate(s.uploads, id, Up.Save(s.uploads[id]), |s.origins|);
    SavedTexts(id);
    T.PostMeasure(s.ctl, Reply(226, "File saved", Finished(id)));
    T.PostMeasure(s.ctl, Reply(450, "File not saved", Finished(id)));
    if s.current.Some? {
      ClosingKeepsMeasure(s.pump, s.current.value);
    }
  }

  lemma CloseIsStep(s: Session, env: Env)
    requires Defined(s) && Enabled(s, env, ClosingTask)
    ensures s.closes > 0
    ensures var t := Step(s, env, ClosingTask).0;
            && t.uploads == s.uploads && t.origins == s.origins && t.closes == s.closes - 1 && t.ctl == s.ctl
            && (t.pump == s.pump || (s.current.Some? && t.pump == D.Close(s.pump, s.current.value)))
  {
    hide C.Inv, D.Inv, PacketDefined, D.Close;
  }

  lemma CloseLowers(s: Session, m: Move)
    requires Inv(s) && Enabled(s, m.env, m.event) && m.event.ClosingTask?
    ensures Progress(After(s, m)) < Progress(s) && SameAsked(s, After(s, m))
  {
    hide Inv, Enabled, Defined, Step, After, C.Measure, D.Measure, Sum, D.Close;
    T.AfterIsStep(s, m);
    CloseIsStep(s, m.env);
    if s.current.Some? {
      ClosingKeepsMeasure(s.pump, s.current.value);
    }
  }

  lemma OwnMoveLowers(s: Session, m: Move)
    requires Inv(s) && Enabled(s, m.env, m.event) && OwnMove(m.event)
    ensures Progress(After(s, m)) < Progress(s) && SameAsked(s, After(s, m))
  {
    hide Inv, Enabled, After, Progress, SameAsked, T.PumpMove;
    if m.event.UploadStep? && m.event.move.Completing? {
      ReadLowers(s, m, m.event.id);
    } else if m.event.Saving? {
      SaveLowers(s, m, m.event.id);
    } else if m.event.ClosingTask? {
      CloseLowers(s, m);
    } else {
      PumpMoveLowers(s, m);
    }
  }

  ghost predicate OwnMoves(moves: seq<Move>) {
    forall k :: 0 <= k < |moves| ==> OwnMove(moves[k].event)
  }

  lemma SameAskedTransitive(s: Session, t: Session, u: Session)
    requires SameAsked(s, t) && SameAsked(t, u)
    ensures SameAsked(s, u)
  {
  }

  lemma {:induction false} OwnRunBounded(s: Session, moves: seq<Move>)
    requires Inv(s) && ValidRun(s, moves) && OwnMoves(moves)
    ensures |moves| <= Progress(s) && SameAsked(s, Exec(s, moves))
    decreases |moves|
  {
    hide Inv, Progress, SameAsked, Enabled, After, OwnMove;
    if moves == [] {
      ProgressNonNegative(s);
    } else {
      OwnMoveLowers(s, moves[0]);
      OwnRunBounded(After(s, moves[0]), moves[1..]);
      SameAskedTransitive(s, After(s, moves[0]), Exec(s, moves));
    }
  }

  lemma ProgressNonNegative(s: Session)
    requires Inv(s)
    ensures 0 <= Progress(s) && SameAsked(s, s)
  {
    hide Inv, T.Measure, Sum;
    T.MeasureNonNegative(s);
  }

  /** There is no step left that the session could take by itself. */
  ghost predicate AtRest(s: Session) {
    forall env, e :: OwnMove(e) ==> !Enabled(s, env, e)
  }

  /** The upload was saved as the whole stream, and answered by exactly one message. */
  ghost predicate UploadDone(s: Session, id: nat)
    requires id in s.uploads
  {
    && s.uploads[id].phase == Up.Saved && s.uploads[id].file == s.uploads[id].stream
    && EndCount(s.ctl.history, id) == 1
  }

  /** Everything posted is on the wire, nothing is to be closed, and every upload that has ended is done. */
  ghost predicate Settled(s: Session) {
    && C.Drained(s.ctl) && s.ctl.wire == C.Text(s.ctl.history) && s.closes == 0
    && forall id :: id in s.uploads && s.uploads[id].ended ==> UploadDone(s, id)
  }

  lemma RestingControl(s: Session, env: Env)
    requires AtRest(s)
    ensures forall ev :: C.Internal(ev) ==> !C.Enabled(s.ctl, ev)
    ensures s.closes == 0
    ensures forall id :: id in s.uploads ==> s.uploads[id].phase != Up.SavePosted && !Up.Readable(s.uploads[id])
  {
    hide C.Enabled, PacketDefined, D.Enabled;
    forall ev | C.Internal(ev) ensures !C.Enabled(s.ctl, ev) {
      assert OwnMove(Control(ev)) && !Enabled(s, env, Control(ev));
    }
    assert OwnMove(ClosingTask) && !Enabled(s, env, ClosingTask);
    forall id | id in s.uploads ensures s.uploads[id].phase != Up.SavePosted && !Up.Readable(s.uploads[id]) {
      assert OwnMove(Saving(id)) && !Enabled(s, env, Saving(id));
      assert OwnMove(UploadStep(id, Up.Completing)) && !Enabled(s, env, UploadStep(id, Up.Completing));
    }
  }

  lemma SavedIsDone(s: Session, id: nat)
    requires Inv(s) && id in s.uploads && s.uploads[id].phase == Up.Saved
    ensures UploadDone(s, id)
  {
    hide Inv, IsDownload, Reading, Answers, Commands, Origins, Reported, Defined, Count, Spelled;
    InvParts(s);
    var u := s.uploads[id];
    assert u.stream[..u.consumed] == u.stream;
    assert !UnderWay(s, id);
  }

  lemma RestIsSettled(s: Session)
    requires Inv(s) && !s.ctl.failed && AtRest(s)
    ensures Settled(s)
  {
    hide Inv, C.Inv, D.Inv, AtRest, C.Enabled, C.Internal, C.Drained, C.Text, UploadDone, Up.Inv, Up.Read;
    RestingControl(s, Env(F.Env(map[], map[], [], None, false), false));
    T.PumpOf(s);
    if C.Drained(s.ctl) {
      C.DrainedWire(s.ctl);
    } else {
      var e := C.MovesUntilDrained(s.ctl);
    }
    forall id | id in s.uploads && s.uploads[id].ended ensures UploadDone(s, id) {
      UploadIsSound(s, id);
      if s.uploads[id].phase == Up.Reading {
        Up.EndedRead(s.uploads[id]);
      } else {
        SavedIsDone(s, id);
      }
    }
  }

  /**
   From every reachable state in which no control write has failed, whatever downloads have
   overlapped or failed: by itself a session takes at most `Progress` steps, in any order, and once
   none is left every message is on the wire, no close is pending, and every upload whose
   connection had ended is saved whole and answered by exactly one reply.
   */
  lemma UploadsAreFinished(greet: bool, before: seq<Move>, after: seq<Move>)
    requires Inv(Fresh(greet)) && ValidRun(Fresh(greet), before) && !Exec(Fresh(greet), before).ctl.failed
    requires ValidRun(Exec(Fresh(greet), before), after) && OwnMoves(after)
    ensures var s := Exec(Fresh(greet), before);
            var t := Exec(s, after);
            |after| <= Progress(s) && SameAsked(s, t) && (AtRest(t) ==> Settled(t))
  {
    hide Inv, Progress, AtRest, Settled, ValidRun, Exec, OwnMoves, Fresh;
    var s := Exec(Fresh(greet), before);
    OwnRunBounded(s, after);
    if AtRest(Exec(s, after)) {
      RestIsSettled(Exec(s, after));
    }
  }
}
