/**
 The control-output pump of a session (server/object_storage/src/session.cpp, `sendMessage` and
 `sendMessageHandler`) as a step machine: messages posted to the strand, the output queue, and
 at most one asynchronous write whose bytes reach the wire piece by piece.
 */
module ControlPump {
  import opened Messages

  datatype Pump = Pump(
    posted: seq<Message>,   // tasks of sendMessage that have not run yet
    queue: seq<Message>,    // output_queue_
    writing: bool,          // an asynchronous write of the front is in flight
    written: nat,           // how much of the front is on the wire
    failed: bool,           // history: a write has failed
    history: seq<Message>,  // history: everything posted, in post order
    sent: seq<Message>,     // history: everything written completely
    wire: string            // the bytes that reached the control socket
  )

  const Idle := Pump([], [], false, 0, false, [], [], "")

  function Text(messages: seq<Message>): string {
    if messages == [] then "" else messages[0].text + Text(messages[1..])
  }

  /** The part of the front message that is on the wire. */
  function Partial(p: Pump): string
    requires p.written <= if p.queue == [] then 0 else |p.queue[0].text|
  {
    if p.queue == [] then "" else p.queue[0].text[..p.written]
  }

  ghost predicate Inv(p: Pump) {
    && p.written <= (if p.queue == [] then 0 else |p.queue[0].text|)
    && p.history == p.sent + p.queue + p.posted
    && p.wire == Text(p.sent) + Partial(p)
    && (p.failed ==> !p.writing && p.queue != [])
    && (!p.failed ==> (p.writing <==> p.queue != []))
  }

  // ---------------------------------------------------------------- steps

  /** sendMessage: post the task that will enqueue the message. */
  function Post(p: Pump, m: Message): Pump {
    p.(posted := p.posted + [m], history := p.history + [m])
  }

  /** The posted task: enqueue, and start writing only if the queue was empty. */
  function RunPosted(p: Pump): Pump
    requires p.posted != []
  {
    var q := p.(posted := p.posted[1..], queue := p.queue + [p.posted[0]]);
    if p.queue == [] then q.(writing := true, written := 0) else q
  }

  /** Some more bytes of the message in flight reach the wire. */
  function Transfer(p: Pump, k: nat): Pump
    requires p.writing && p.queue != [] && p.written + k <= |p.queue[0].text|
  {
    p.(written := p.written + k, wire := p.wire + p.queue[0].text[p.written..p.written + k])
  }

  /** The completion handler: on success pop the front and go on, on error stop for good. */
  function Complete(p: Pump, ok: bool): Pump
    requires p.writing && p.queue != []
  {
    if ok then
      var rest := p.queue[1..];
      p.(queue := rest, sent := p.sent + [p.queue[0]], writing := rest != [], written := 0)
    else
      p.(writing := false, failed := true)
  }

  lemma {:induction false} TextAppend(a: seq<Message>, b: seq<Message>)
    ensures Text(a + b) == Text(a) + Text(b)
  {
    if a == [] {
      assert a + b == b;
    } else {
      TextAppend(a[1..], b);
      assert (a + b)[1..] == a[1..] + b && (a + b)[0] == a[0];
      assert Text(a + b) == a[0].text + Text(a[1..] + b);
    }
  }

  lemma PostKeeps(p: Pump, m: Message)
    requires Inv(p)
    ensures Inv(Post(p, m)) && Post(p, m).history == p.history + [m]
  {
  }

  lemma RunPostedKeeps(p: Pump)
    requires Inv(p) && p.posted != []
    ensures Inv(RunPosted(p))
  {
    hide Text;
    var q := RunPosted(p);
    assert q.history == q.sent + q.queue + q.posted;
    if p.queue == [] {
      assert q.queue[0].text[..0] == "";
    }
  }

  lemma TransferKeeps(p: Pump, k: nat)
    requires Inv(p) && p.writing && p.queue != [] && p.written + k <= |p.queue[0].text|
    ensures Inv(Transfer(p, k))
  {
    hide Text;
    var t := p.queue[0].text;
    assert t[..p.written + k] == t[..p.written] + t[p.written..p.written + k];
  }

  lemma TextOfOne(m: Message)
    ensures Text([m]) == m.text
  {
    assert [m][1..] == [];
  }

  lemma CompleteKeeps(p: Pump, ok: bool)
    requires Inv(p) && p.writing && p.queue != []
    requires ok ==> p.written == |p.queue[0].text|
    ensures Inv(Complete(p, ok))
  {
    hide Text;
    if ok {
      var q := Complete(p, ok);
      TextAppend(p.sent, [p.queue[0]]);
      TextOfOne(p.queue[0]);
      assert p.queue[0].text[..p.written] == p.queue[0].text;
      assert q.history == q.sent + q.queue + q.posted;
    }
  }

  // ---------------------------------------------------------------- runs

  datatype Event = Posting(m: Message) | Running | Transferring(k: nat) | Completing(ok: bool)

  /** Which steps can happen. Nothing is asked of the queue: that it is not empty is a theorem. */
  predicate Enabled(p: Pump, e: Event) {
    match e
    case Posting(_) => true
    case Running => p.posted != []
    case Transferring(k) => p.writing && (p.queue != [] ==> 0 < k <= |p.queue[0].text| - p.written)
    case Completing(ok) => p.writing && (ok && p.queue != [] ==> p.written == |p.queue[0].text|)
  }

  function Next(p: Pump, e: Event): Pump
    requires Inv(p) && Enabled(p, e)
  {
    match e
    case Posting(m) => Post(p, m)
    case Running => RunPosted(p)
    case Transferring(k) => Transfer(p, k)
    case Completing(ok) => Complete(p, ok)
  }

  lemma NextKeeps(p: Pump, e: Event)
    requires Inv(p) && Enabled(p, e)
    ensures Inv(Next(p, e))
  {
    hide Inv, Text;
    match e
    case Posting(m) => PostKeeps(p, m);
    case Running => RunPostedKeeps(p);
    case Transferring(k) => QueueWhileWriting(p); TransferKeeps(p, k);
    case Completing(ok) => QueueWhileWriting(p); CompleteKeeps(p, ok);
  }

  /** front and pop_front of the write handlers never meet an empty queue. */
  lemma QueueWhileWriting(p: Pump)
    requires Inv(p) && p.writing
    ensures p.queue != []
  {
  }

  ghost predicate ValidRun(p: Pump, events: seq<Event>)
    requires Inv(p)
    decreases |events|
  {
    events == [] ||
    (Enabled(p, events[0]) && (NextKeeps(p, events[0]); ValidRun(Next(p, events[0]), events[1..])))
  }

  ghost function Exec(p: Pump, events: seq<Event>): (q: Pump)
    requires Inv(p) && ValidRun(p, events)
    ensures Inv(q)
    decreases |events|
  {
    if events == [] then p
    else
      NextKeeps(p, events[0]);
      Exec(Next(p, events[0]), events[1..])
  }

  /** In every state the bytes on the wire are a prefix of the messages in post order. */
  lemma WireIsPrefix(p: Pump)
    requires Inv(p)
    ensures p.wire <= Text(p.history)
  {
    TextAppend(p.sent + p.queue, p.posted);
    TextAppend(p.sent, p.queue);
    if p.queue != [] {
      assert Partial(p) <= p.queue[0].text <= Text(p.queue);
    }
  }

  /** After a failed write nothing reaches the wire and no write starts, whatever happens. */
  lemma {:induction false} FailureIsFinal(p: Pump, events: seq<Event>)
    requires Inv(p) && p.failed && ValidRun(p, events)
    ensures var q := Exec(p, events); q.failed && !q.writing && q.wire == p.wire && q.sent == p.sent
    decreases |events|
  {
    hide Inv, Text;
    if events != [] {
      FailedStep(p, events[0]);
      NextKeeps(p, events[0]);
      FailureIsFinal(Next(p, events[0]), events[1..]);
    } else {
      FailedIdle(p);
    }
  }

  lemma FailedIdle(p: Pump)
    requires Inv(p) && p.failed
    ensures !p.writing
  {
  }

  lemma FailedStep(p: Pump, e: Event)
    requires Inv(p) && p.failed && Enabled(p, e)
    ensures var q := Next(p, e); q.failed && q.wire == p.wire && q.sent == p.sent
  {
    hide Text;
  }

  // ---------------------------------------------------------------- draining

  /** An upper bound on the error-free steps left when nothing new is posted. */
  function Measure(p: Pump): int {
    2 * |p.posted| + |p.queue| + |Text(p.queue)| + |Text(p.posted)| - p.written
  }

  predicate Internal(e: Event) {
    e.Running? || e.Transferring? || (e.Completing? && e.ok)
  }

  predicate Drained(p: Pump) {
    p.posted == [] && p.queue == [] && !p.writing
  }

  lemma MeasureDecreases(p: Pump, e: Event)
    requires Inv(p) && Enabled(p, e) && Internal(e)
    ensures 0 <= Measure(Next(p, e)) < Measure(p)
    ensures Next(p, e).failed == p.failed && Next(p, e).history == p.history
  {
    NextKeeps(p, e);
    var q := Next(p, e);
    MeasureNonNegative(q);
    match e
    case Running =>
      TextAppend(p.queue, [p.posted[0]]);
    case Transferring(k) =>
    case Completing(ok) =>
  }

  lemma MeasureNonNegative(p: Pump)
    requires Inv(p)
    ensures 0 <= Measure(p)
  {
  }

  /** A pump that has not failed can always move on until it is drained. */
  lemma MovesUntilDrained(p: Pump) returns (e: Event)
    requires Inv(p) && !p.failed && !Drained(p)
    ensures Enabled(p, e) && Internal(e)
  {
    hide Text;
    if p.posted != [] {
      e := Running;
    } else if p.written == |p.queue[0].text| {
      e := Completing(true);
    } else {
      e := Transferring(1);
    }
  }

  ghost predicate InternalRun(events: seq<Event>) {
    forall k :: 0 <= k < |events| ==> Internal(events[k])
  }

  /**
   Without failure and new messages every run is at most `Measure` steps long, and one that
   cannot be continued has put every message, whole and in post order, on the wire.
   */
  lemma {:induction false} DrainsCompletely(p: Pump, events: seq<Event>)
    requires Inv(p) && !p.failed && ValidRun(p, events) && InternalRun(events)
    ensures |events| <= Measure(p)
    ensures var q := Exec(p, events);
            (forall e :: Internal(e) ==> !Enabled(q, e)) ==> Drained(q) && q.wire == Text(p.history)
    decreases |events|
  {
    hide Inv, Text, Measure, Partial;
    if events == [] {
      MeasureNonNegative(p);
      if forall e :: Internal(e) ==> !Enabled(p, e) {
        if !Drained(p) {
          var e := MovesUntilDrained(p);
        } else {
          DrainedWire(p);
        }
      }
    } else {
      NextKeeps(p, events[0]);
      MeasureDecreases(p, events[0]);
      DrainsCompletely(Next(p, events[0]), events[1..]);
    }
  }

  lemma DrainedWire(p: Pump)
    requires Inv(p) && Drained(p)
    ensures p.wire == Text(p.history)
  {
    assert p.history == p.sent;
  }
}
