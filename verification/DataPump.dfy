/**
 The FTP data pump of a session (server/object_storage/src/session.cpp, `enqueueFtpDataHandler`
 and `sendFtpDataHandler`) as a step machine. Tasks run in the order in which they were posted.
 A buffer entry without payload is the null pointer that means end of transmission.
 */
module DataPump {
  import opened Wrappers

  /** The owner is the data socket the entry was enqueued for; the steps never look at it. */
  datatype Entry = Entry(owner: nat, payload: Option<string>)

  datatype Task = Enqueue(entry: Entry) | Send(sock: nat)

  datatype Write = Write(sock: nat, data: string, done: nat)

  /** A LIST or RETR whose data connection was accepted: its socket and the bytes to send. */
  datatype Download = Download(id: nat, bytes: string)

  datatype Pump = Pump(
    tasks: seq<Task>,          // posted to ftp_data_serializer_, not yet run
    buffer: seq<Entry>,        // ftp_data_buffer_
    inflight: Option<Write>,   // the asynchronous write on a data socket
    accepted: seq<Download>,   // history: downloads in the order of their accepts
    served: nat,               // history: how many terminators were popped
    half: bool,                // history: a file was popped whose terminator was not
    cutShort: bool,            // history: a write failed, or a terminator was popped before other entries
    got: map<nat, string>,     // bytes that reached each data socket
    closed: set<nat>,          // data sockets that were closed
    completed: seq<nat>        // history: sockets for which the pump posted 226
  )

  const Empty := Pump([], [], None, [], 0, false, false, map[], {}, [])

  // ---------------------------------------------------------------- steps

  /** The accept handler of LIST and RETR: post the file and its terminator. */
  function Accept(p: Pump, d: Download): Pump {
    p.(tasks := p.tasks + [Enqueue(Entry(d.id, Some(d.bytes))), Enqueue(Entry(d.id, None))],
       accepted := p.accepted + [d])
  }

  /** enqueueFtpDataHandler: append, and post a send step only if the buffer was empty. */
  function RunEnqueue(p: Pump): Pump
    requires p.tasks != [] && p.tasks[0].Enqueue?
  {
    var e := p.tasks[0].entry;
    p.(buffer := p.buffer + [e],
       tasks := p.tasks[1..] + if p.buffer == [] then [Send(e.owner)] else [])
  }

  /**
   sendFtpDataHandler: write the front file, or pop the terminator, close the socket, post 226
   and stop, without looking at what else is in the buffer.
   */
  function RunSend(p: Pump): Pump
    requires p.tasks != [] && p.tasks[0].Send? && p.buffer != []
  {
    var s := p.tasks[0].sock;
    match p.buffer[0].payload
    case Some(data) => p.(tasks := p.tasks[1..], inflight := Some(Write(s, data, 0)))
    case None =>
      p.(tasks := p.tasks[1..], buffer := p.buffer[1..], closed := p.closed + {s}, completed := p.completed + [s],
         served := p.served + 1, half := false, cutShort := p.cutShort || p.buffer[1..] != [])
  }

  function Got(p: Pump, id: nat): string {
    if id in p.got then p.got[id] else ""
  }

  function Transfer(p: Pump, k: nat): Pump
    requires p.inflight.Some? && p.inflight.value.done + k <= |p.inflight.value.data|
  {
    var w := p.inflight.value;
    p.(inflight := Some(w.(done := w.done + k)),
       got := p.got[w.sock := Got(p, w.sock) + w.data[w.done..w.done + k]])
  }

  /** The completion handler: pop the front, and go on only after success with entries left. */
  function Complete(p: Pump, ok: bool): Pump
    requires p.inflight.Some? && p.buffer != []
  {
    var s := p.inflight.value.sock;
    p.(inflight := None, buffer := p.buffer[1..], half := true, cutShort := p.cutShort || !ok,
       tasks := p.tasks + if ok && p.buffer[1..] != [] then [Send(s)] else [])
  }

  /** closeFtpDataSocket, called from elsewhere in the session. */
  function Close(p: Pump, id: nat): Pump {
    p.(closed := p.closed + {id})
  }

  // ---------------------------------------------------------------- invariant

  /** The entries the accepted downloads put into the buffer, in order. */
  function Layout(ds: seq<Download>): (es: seq<Entry>)
    ensures |es| == 2 * |ds|
  {
    if ds == [] then []
    else [Entry(ds[0].id, Some(ds[0].bytes)), Entry(ds[0].id, None)] + Layout(ds[1..])
  }

  /** The entries still on their way to the buffer. */
  function Pending(tasks: seq<Task>): seq<Entry> {
    if tasks == [] then []
    else (if tasks[0].Enqueue? then [tasks[0].entry] else []) + Pending(tasks[1..])
  }

  /** The sockets of the posted send steps. */
  function Sends(tasks: seq<Task>): seq<nat> {
    if tasks == [] then []
    else (if tasks[0].Send? then [tasks[0].sock] else []) + Sends(tasks[1..])
  }

  /** How many entries will be enqueued before the first send step runs. */
  function Ahead(tasks: seq<Task>): nat {
    if tasks == [] || tasks[0].Send? then 0 else 1 + Ahead(tasks[1..])
  }

  ghost predicate Counts(p: Pump) {
    && p.served <= |p.accepted|
    && (p.half ==> p.served < |p.accepted|)
    && (forall i, j :: 0 <= i < j < |p.accepted| ==> p.accepted[i].id != p.accepted[j].id)
  }

  /** What is left of the layout once the popped entries are gone. */
  function Rest(p: Pump): seq<Entry>
    requires p.served <= |p.accepted| && (p.half ==> p.served < |p.accepted|)
  {
    Layout(p.accepted[p.served..])[if p.half then 1 else 0..]
  }

  predicate Active(p: Pump) {
    p.inflight.Some? || Sends(p.tasks) != []
  }

  /** At most one send step or write exists; it belongs to the front entry, which is there. */
  ghost predicate OneActivity(p: Pump)
    requires Counts(p)
  {
    && (p.half ==> p.buffer != [])
    && (p.inflight.Some? ==>
          && Sends(p.tasks) == [] && !p.half && |p.buffer| >= 2 && p.served < |p.accepted|
          && p.inflight.value.sock == p.accepted[p.served].id
          && p.inflight.value.data == p.accepted[p.served].bytes
          && p.inflight.value.done <= |p.inflight.value.data|)
    && (Sends(p.tasks) != [] ==>
          && p.served < |p.accepted| && Sends(p.tasks) == [p.accepted[p.served].id]
          && p.buffer != [] && (!p.half ==> |p.buffer| + Ahead(p.tasks) >= 2))
  }

  /** What each data socket has received, and which were closed with a 226. */
  ghost predicate Delivery(p: Pump)
    requires Counts(p)
  {
    && |p.completed| == p.served
    && (forall i :: 0 <= i < p.served ==>
          && p.completed[i] == p.accepted[i].id && p.accepted[i].id in p.closed
          && Got(p, p.accepted[i].id) == p.accepted[i].bytes)
    && (forall i :: p.served < i < |p.accepted| ==> p.accepted[i].id !in p.got)
    && (forall id :: id in p.got ==> exists i :: 0 <= i < |p.accepted| && p.accepted[i].id == id)
    && (p.served < |p.accepted| ==>
          var d := p.accepted[p.served];
          if p.half then Got(p, d.id) <= d.bytes && (Active(p) ==> Got(p, d.id) == d.bytes)
          else if p.inflight.Some? then
            && p.inflight.value.done <= |d.bytes|
            && Got(p, d.id) == d.bytes[..p.inflight.value.done]
          else d.id !in p.got)
  }

  ghost predicate Inv(p: Pump) {
    && Counts(p)
    && p.buffer + Pending(p.tasks) == Rest(p)
    && OneActivity(p)
    && Delivery(p)
    && (p.cutShort <==> p.buffer != [] && !Active(p))
  }

  lemma {:induction false} LayoutAppend(ds: seq<Download>, d: Download)
    ensures Layout(ds + [d]) == Layout(ds) + [Entry(d.id, Some(d.bytes)), Entry(d.id, None)]
  {
    if ds == [] {
      assert ([] + [d])[1..] == [];
    } else {
      LayoutAppend(ds[1..], d);
      assert (ds + [d])[1..] == ds[1..] + [d];
    }
  }

  lemma {:induction false} PendingAppend(a: seq<Task>, b: seq<Task>)
    ensures Pending(a + b) == Pending(a) + Pending(b)
  {
    if a == [] {
      assert a + b == b;
    } else {
      var front := if a[0].Enqueue? then [a[0].entry] else [];
      PendingAppend(a[1..], b);
      assert (a + b)[1..] == a[1..] + b;
      assert front + (Pending(a[1..]) + Pending(b)) == (front + Pending(a[1..])) + Pending(b);
    }
  }

  lemma {:induction false} SendsAppend(a: seq<Task>, b: seq<Task>)
    ensures Sends(a + b) == Sends(a) + Sends(b)
  {
    if a == [] {
      assert a + b == b;
    } else {
      var front := if a[0].Send? then [a[0].sock] else [];
      SendsAppend(a[1..], b);
      assert (a + b)[1..] == a[1..] + b;
      assert front + (Sends(a[1..]) + Sends(b)) == (front + Sends(a[1..])) + Sends(b);
    }
  }

  lemma {:induction false} AheadAppend(a: seq<Task>, b: seq<Task>)
    ensures Ahead(a + b) == if Sends(a) == [] then |Pending(a)| + Ahead(b) else Ahead(a)
  {
    if a == [] {
      assert a + b == b;
    } else {
      AheadAppend(a[1..], b);
      assert (a + b)[1..] == a[1..] + b;
    }
  }

  lemma TasksAppend(a: seq<Task>, b: seq<Task>)
    ensures Pending(a + b) == Pending(a) + Pending(b)
    ensures Sends(a + b) == Sends(a) + Sends(b)
    ensures Ahead(a + b) == if Sends(a) == [] then |Pending(a)| + Ahead(b) else Ahead(a)
  {
    PendingAppend(a, b);
    SendsAppend(a, b);
    AheadAppend(a, b);
  }

  /** The entry at the front of the buffer, as the history tells it. */
  lemma FrontIs(p: Pump)
    requires Counts(p) && p.buffer + Pending(p.tasks) == Rest(p)
    requires Rest(p) != []
    ensures p.served < |p.accepted|
    ensures var d := p.accepted[p.served];
            Rest(p)[0] == if p.half then Entry(d.id, None) else Entry(d.id, Some(d.bytes))
    ensures p.buffer != [] ==> p.buffer[0] == Rest(p)[0]
    ensures !p.half ==> |Rest(p)| >= 2
  {
    if p.buffer != [] {
      assert (p.buffer + Pending(p.tasks))[0] == p.buffer[0];
    }
  }

  lemma AcceptKeeps(p: Pump, d: Download)
    requires Inv(p) && forall i :: 0 <= i < |p.accepted| ==> p.accepted[i].id != d.id
    ensures Inv(Accept(p, d))
  {
    hide Layout, Pending, Sends, Ahead;
    var q := Accept(p, d);
    var file, end := Entry(d.id, Some(d.bytes)), Entry(d.id, None);
    var posts := [Enqueue(file), Enqueue(end)];
    TasksAppend(p.tasks, posts);
    PostsAre(file, end);
    LayoutAppend(p.accepted[p.served..], d);
    assert q.accepted[q.served..] == p.accepted[p.served..] + [d];
    assert Rest(q) == Rest(p) + [file, end];
    AcceptDelivers(p, d);
  }

  lemma PostsAre(file: Entry, end: Entry)
    ensures Pending([Enqueue(file), Enqueue(end)]) == [file, end]
    ensures Sends([Enqueue(file), Enqueue(end)]) == []
  {
    assert [Enqueue(file), Enqueue(end)][1..] == [Enqueue(end)] && [Enqueue(end)][1..] == [];
    assert Sends([Enqueue(end)]) == Sends([]) == [];
    assert Pending([Enqueue(end)]) == [end];
  }

  lemma AcceptDelivers(p: Pump, d: Download)
    requires Inv(p) && forall i :: 0 <= i < |p.accepted| ==> p.accepted[i].id != d.id
    requires Counts(Accept(p, d)) && Sends(Accept(p, d).tasks) == Sends(p.tasks)
    ensures Delivery(Accept(p, d))
  {
    hide Layout, Pending, Sends, Ahead, Rest;
    var q := Accept(p, d);
    forall id | id in q.got ensures exists i :: 0 <= i < |q.accepted| && q.accepted[i].id == id {
      var i :| 0 <= i < |p.accepted| && p.accepted[i].id == id;
      assert q.accepted[i].id == id;
    }
  }

  lemma TaskHead(p: Pump)
    requires p.tasks != []
    ensures var t, rest := p.tasks[0], p.tasks[1..];
            && (t.Enqueue? ==> Pending(p.tasks) == [t.entry] + Pending(rest) && Sends(p.tasks) == Sends(rest)
                               && Ahead(p.tasks) == 1 + Ahead(rest))
            && (t.Send? ==> Pending(p.tasks) == Pending(rest) && Sends(p.tasks) == [t.sock] + Sends(rest)
                            && Ahead(p.tasks) == 0)
  {
  }

  lemma SendIs(s: nat)
    ensures Pending([Send(s)]) == [] && Sends([Send(s)]) == [s] && Ahead([Send(s)]) == 0
  {
  }

  lemma RunEnqueueKeeps(p: Pump)
    requires Inv(p) && p.tasks != [] && p.tasks[0].Enqueue?
    ensures Inv(RunEnqueue(p))
  {
    hide Layout, Pending, Sends, Ahead, Rest;
    var q := RunEnqueue(p);
    var e, rest := p.tasks[0].entry, p.tasks[1..];
    TaskHead(p);
    assert p.buffer + Pending(p.tasks) == (p.buffer + [e]) + Pending(rest);
    SameRest(p, q);
    if p.buffer == [] {
      assert Rest(p) == Pending(p.tasks);
      FrontIs(p);
      SendIs(e.owner);
      TasksAppend(rest, [Send(e.owner)]);
      assert (p.buffer + [e]) + Pending(rest) == q.buffer + Pending(q.tasks);
    } else {
      assert q.tasks == rest;
    }
  }

  lemma SameRest(p: Pump, q: Pump)
    requires Counts(p) && p.accepted == q.accepted && p.served == q.served && p.half == q.half
    ensures Counts(q) && Rest(p) == Rest(q)
  {
  }

  lemma PoppedRest(p: Pump, q: Pump)
    requires Counts(p) && Rest(p) != [] && p.accepted == q.accepted
    requires if p.half then q.served == p.served + 1 && !q.half else q.served == p.served && q.half
    ensures Counts(q) && Rest(q) == Rest(p)[1..]
  {
    if p.half {
      assert p.accepted[p.served..][1..] == p.accepted[q.served..];
    }
  }

  /** Popping the terminator. */
  lemma RunTerminatorKeeps(p: Pump)
    requires Inv(p) && p.tasks != [] && p.tasks[0].Send? && p.half
    ensures p.buffer != [] && Inv(RunSend(p))
    ensures RunSend(p).completed == p.completed + [p.accepted[p.served].id]
  {
    hide Layout, Pending, Sends, Ahead, Rest;
    TaskHead(p);
    var q := RunSend(p);
    assert (p.buffer + Pending(p.tasks)) != [];
    FrontIs(p);
    PoppedRest(p, q);
    assert q.buffer + Pending(q.tasks) == (p.buffer + Pending(p.tasks))[1..];
    assert Sends(p.tasks)[0] == p.tasks[0].sock == p.accepted[p.served].id;
    assert |Sends(p.tasks)| == 1 + |Sends(q.tasks)|;
    assert OneActivity(q);
    TerminatorDelivers(p, q);
  }

  lemma TerminatorDelivers(p: Pump, q: Pump)
    requires Inv(p) && Counts(q) && p.half && p.inflight.None? && Active(p)
    requires var id := p.accepted[p.served].id;
             q == p.(tasks := q.tasks, buffer := q.buffer, closed := p.closed + {id}, completed := p.completed + [id],
                     served := p.served + 1, half := false, cutShort := q.cutShort)
    ensures Delivery(q)
  {
    hide Layout, Pending, Sends, Ahead, Rest, OneActivity;
    forall i | 0 <= i < q.served
      ensures q.completed[i] == q.accepted[i].id && q.accepted[i].id in q.closed
              && Got(q, q.accepted[i].id) == q.accepted[i].bytes
    {
      assert i < p.served ==> q.completed[i] == p.completed[i];
    }
  }

  /** Starting to write the front file. */
  lemma RunFileKeeps(p: Pump)
    requires Inv(p) && p.tasks != [] && p.tasks[0].Send? && !p.half
    ensures p.buffer != [] && Inv(RunSend(p)) && RunSend(p).completed == p.completed
  {
    hide Layout, Pending, Sends, Ahead, Rest;
    TaskHead(p);
    var q := RunSend(p);
    assert (p.buffer + Pending(p.tasks)) != [];
    FrontIs(p);
    SameRest(p, q);
    assert p.accepted[p.served].bytes[..0] == "";
    assert |Sends(p.tasks)| == 1 + |Sends(q.tasks)|;
    assert Sends(p.tasks)[0] == p.tasks[0].sock == p.accepted[p.served].id;
    assert p.buffer[0].payload == Some(p.accepted[p.served].bytes);
    assert OneActivity(q);
    assert Delivery(q);
  }

  lemma RunSendKeeps(p: Pump)
    requires Inv(p) && p.tasks != [] && p.tasks[0].Send?
    ensures p.buffer != [] && Inv(RunSend(p))
    ensures RunSend(p).completed == p.completed + if p.half then [p.accepted[p.served].id] else []
  {
    hide Inv, RunSend;
    if p.half {
      RunTerminatorKeeps(p);
    } else {
      RunFileKeeps(p);
    }
  }

  lemma TransferKeeps(p: Pump, k: nat)
    requires Inv(p) && p.inflight.Some? && p.inflight.value.done + k <= |p.inflight.value.data|
    ensures Inv(Transfer(p, k))
  {
    hide Layout, Pending, Sends, Ahead, Rest;
    var q := Transfer(p, k);
    SameRest(p, q);
    var w := p.inflight.value;
    assert w.data[..w.done + k] == w.data[..w.done] + w.data[w.done..w.done + k];
    assert p.accepted[p.served].id == w.sock;
  }

  lemma CompleteKeeps(p: Pump, ok: bool)
    requires Inv(p) && p.inflight.Some?
    requires ok ==> p.inflight.value.done == |p.inflight.value.data|
    ensures p.buffer != [] && Inv(Complete(p, ok))
  {
    hide Layout, Pending, Sends, Ahead, Rest;
    var q := Complete(p, ok);
    var w := p.inflight.value;
    FrontIs(p);
    PoppedRest(p, q);
    SendIs(w.sock);
    NoTask();
    TasksAppend(p.tasks, if ok then [Send(w.sock)] else []);
    assert q.buffer + Pending(q.tasks) == (p.buffer + Pending(p.tasks))[1..];
    assert ok ==> w.data[..w.done] == w.data;
  }

  lemma NoTask()
    ensures Pending([]) == [] && Sends([]) == []
  {
  }

  lemma CloseKeeps(p: Pump, id: nat)
    requires Inv(p)
    ensures Inv(Close(p, id))
  {
    hide Layout, Pending, Sends, Ahead, Rest;
    SameRest(p, Close(p, id));
  }

  // ---------------------------------------------------------------- runs

  datatype Event =
    | Accepting(d: Download)
    | Running
    | Transferring(k: nat)
    | Completing(ok: bool)
    | Closing(id: nat)

  /** Which steps can happen. Nothing is asked of the buffer: that it is not empty is a theorem. */
  ghost predicate Enabled(p: Pump, e: Event) {
    match e
    case Accepting(d) => forall i :: 0 <= i < |p.accepted| ==> p.accepted[i].id != d.id
    case Running => p.tasks != []
    case Transferring(k) =>
      p.inflight.Some? && p.inflight.value.sock !in p.closed
      && 0 < k <= |p.inflight.value.data| - p.inflight.value.done
    case Completing(ok) => p.inflight.Some? && (ok ==> p.inflight.value.done == |p.inflight.value.data|)
    case Closing(_) => true
  }

  /** front and pop_front never meet an empty buffer. */
  lemma BufferWhileActive(p: Pump)
    requires Inv(p) && Active(p)
    ensures p.buffer != []
  {
    hide Rest, Pending, Ahead, Delivery;
  }

  function RunTask(p: Pump): Pump
    requires p.tasks != [] && (p.tasks[0].Send? ==> p.buffer != [])
  {
    if p.tasks[0].Enqueue? then RunEnqueue(p) else RunSend(p)
  }

  ghost function Next(p: Pump, e: Event): Pump
    requires Inv(p) && Enabled(p, e)
  {
    if Active(p) then BufferWhileActive(p); NextStep(p, e) else NextStep(p, e)
  }

  ghost function NextStep(p: Pump, e: Event): Pump
    requires Enabled(p, e) && (Active(p) ==> p.buffer != [])
    requires p.inflight.Some? ==> p.inflight.value.done <= |p.inflight.value.data|
  {
    match e
    case Accepting(d) => Accept(p, d)
    case Running => RunTask(p)
    case Transferring(k) => Transfer(p, k)
    case Completing(ok) => Complete(p, ok)
    case Closing(id) => Close(p, id)
  }

  lemma NextKeeps(p: Pump, e: Event)
    requires Inv(p) && Enabled(p, e)
    ensures Inv(Next(p, e))
  {
    hide Inv, Active;
    match e
    case Accepting(d) => AcceptKeeps(p, d);
    case Running => if p.tasks[0].Enqueue? { RunEnqueueKeeps(p); } else { RunSendKeeps(p); }
    case Transferring(k) => TransferKeeps(p, k);
    case Completing(ok) => CompleteKeeps(p, ok);
    case Closing(id) => CloseKeeps(p, id);
  }

  ghost predicate ValidRun(p: Pump, events: seq<Event>)
    requires Inv(p)
    decreases |events|
  {
    events == [] ||
    (Enabled(p, events[0]) && (NextKeeps(p, events[0]); ValidRun(Next(p, events[0]), events[1..])))
  }

  ghost function Exec(p: Pump, events: seq<Event>): (q: Pump)
    requires Inv(p) && ValidRun(p, events)
    ensures Inv(q)
    decreases |events|
  {
    if events == [] then p
    else
      NextKeeps(p, events[0]);
      Exec(Next(p, events[0]), events[1..])
  }

  lemma EmptyInv()
    ensures Inv(Empty)
  {
  }

  // ---------------------------------------------------------------- safety, in every run

  /**
   At most one send step or write exists, and while one does the buffer is not empty; what is
   being written is the front entry, on the socket it was enqueued for.
   */
  lemma OneActivityAtFront(p: Pump)
    requires Inv(p)
    ensures |Sends(p.tasks)| + (if p.inflight.Some? then 1 else 0) <= 1
    ensures Active(p) ==> p.buffer != []
    ensures p.inflight.Some? ==> p.buffer[0] == Entry(p.inflight.value.sock, Some(p.inflight.value.data))
    ensures Sends(p.tasks) != [] ==> p.buffer[0].owner == Sends(p.tasks)[0]
  {
    hide Sends, Pending, Ahead, Layout, Rest, Delivery;
    if Active(p) {
      assert (p.buffer + Pending(p.tasks)) != [];
      FrontIs(p);
    }
  }

  function Ids(ds: seq<Download>): (ids: seq<nat>)
    ensures |ids| == |ds|
  {
    seq(|ds|, i requires 0 <= i < |ds| => ds[i].id)
  }

  /** The owners of the terminators, in order. */
  function Terminators(es: seq<Entry>): seq<nat> {
    if es == [] then []
    else (if es[0].payload.None? then [es[0].owner] else []) + Terminators(es[1..])
  }

  lemma {:induction false} TerminatorsAppend(a: seq<Entry>, b: seq<Entry>)
    ensures Terminators(a + b) == Terminators(a) + Terminators(b)
  {
    if a == [] {
      assert a + b == b;
    } else {
      TerminatorsAppend(a[1..], b);
      assert (a + b)[1..] == a[1..] + b && (a + b)[0] == a[0];
      assert Terminators(a + b) == (if a[0].payload.None? then [a[0].owner] else []) + Terminators(a[1..] + b);
    }
  }

  lemma {:induction false} TerminatorsOfLayout(ds: seq<Download>)
    ensures Terminators(Layout(ds)) == Ids(ds)
    ensures ds != [] ==> Terminators(Layout(ds)[1..]) == Ids(ds)
  {
    if ds != [] {
      TerminatorsOfLayout(ds[1..]);
      var tail := Layout(ds)[1..];
      assert tail[1..] == Layout(ds[1..]);
      assert Ids(ds) == [ds[0].id] + Ids(ds[1..]);
    }
  }

  lemma IdsSplit(ds: seq<Download>, n: nat)
    requires n <= |ds|
    ensures Ids(ds) == Ids(ds[..n]) + Ids(ds[n..])
  {
  }

  lemma CompletedAreServed(p: Pump)
    requires Inv(p)
    ensures p.completed == Ids(p.accepted[..p.served])
    ensures forall i, j :: 0 <= i < j < |p.completed| ==> p.completed[i] != p.completed[j]
  {
    hide Sends, Pending, Ahead, Layout, OneActivity, Rest, Got, Active;
  }

  lemma TerminatorsLeft(p: Pump)
    requires Inv(p)
    ensures Ids(p.accepted[p.served..]) == Terminators(p.buffer) + Terminators(Pending(p.tasks))
  {
    hide Sends, Pending, Ahead, Layout, OneActivity, Delivery, Terminators, Ids, Active;
    var left := p.accepted[p.served..];
    TerminatorsOfLayout(left);
    TerminatorsAppend(p.buffer, Pending(p.tasks));
    assert Layout(left)[0..] == Layout(left);
  }

  /**
   No download is lost or answered twice: the accepted ones are, in accept order, those
   answered by 226, those whose terminator is in the buffer, and those whose terminator is
   still posted.
   */
  lemma DownloadsConserved(p: Pump)
    requires Inv(p)
    ensures Ids(p.accepted) == p.completed + Terminators(p.buffer) + Terminators(Pending(p.tasks))
    ensures forall i, j :: 0 <= i < j < |p.completed| ==> p.completed[i] != p.completed[j]
  {
    hide Pending, Terminators, Ids, Rest, OneActivity, Delivery, Active;
    IdsSplit(p.accepted, p.served);
    CompletedAreServed(p);
    TerminatorsLeft(p);
  }

  /**
   A data socket only ever receives the file accepted on it, from its beginning; a 226 means
   that all of it was written and the socket was closed.
   */
  lemma DeliveredIsOwnFile(p: Pump, i: nat)
    requires Inv(p) && i < |p.accepted|
    ensures Got(p, p.accepted[i].id) <= p.accepted[i].bytes
    ensures p.accepted[i].id in p.completed ==>
              Got(p, p.accepted[i].id) == p.accepted[i].bytes && p.accepted[i].id in p.closed
  {
    hide Sends, Pending, Ahead, Layout, Rest, OneActivity;
    var d := p.accepted[i];
    if d.id in p.completed {
      var k :| 0 <= k < |p.completed| && p.completed[k] == d.id;
      assert p.accepted[k].id == d.id;
      assert k == i;
    }
  }

  // ---------------------------------------------------------------- when the pump stops for good

  /** A step after which entries stay in the buffer with nobody to send them. */
  predicate StopsPump(p: Pump, e: Event) {
    || (e.Completing? && !e.ok)
    || (e.Running? && p.tasks != [] && p.tasks[0].Send? && |p.buffer| > 1 && p.buffer[0].payload.None?)
  }

  predicate Stalled(p: Pump) {
    p.buffer != [] && !Active(p)
  }

  ghost predicate StopsSomewhere(p: Pump, events: seq<Event>)
    requires Inv(p) && ValidRun(p, events)
    decreases |events|
  {
    events != [] &&
    (StopsPump(p, events[0]) || (NextKeeps(p, events[0]); StopsSomewhere(Next(p, events[0]), events[1..])))
  }

  lemma CutShortIffStops(p: Pump, e: Event)
    requires Inv(p) && Enabled(p, e)
    ensures Next(p, e).cutShort <==> p.cutShort || StopsPump(p, e)
  {
    hide Inv, Active;
    if e.Running? && p.tasks[0].Send? {
      RunSendKeeps(p);
      assert |p.buffer[1..]| == |p.buffer| - 1;
    }
  }

  /**
   The pump stalls exactly when some step of the run was a failed write or popped a terminator
   in front of other entries: there is no other way to stop it, and no way to restart it.
   */
  lemma {:induction false} StallsIff(p: Pump, events: seq<Event>)
    requires Inv(p) && ValidRun(p, events)
    ensures Stalled(Exec(p, events)) <==> Stalled(p) || StopsSomewhere(p, events)
    decreases |events|
  {
    hide Counts, OneActivity, Delivery, Rest, Pending, Active;
    if events != [] {
      CutShortIffStops(p, events[0]);
      NextKeeps(p, events[0]);
      StallsIff(Next(p, events[0]), events[1..]);
    }
  }

  /** One more step at the end of a run. */
  lemma {:induction false} RunExtended(p: Pump, events: seq<Event>, e: Event)
    requires Inv(p) && ValidRun(p, events) && Enabled(Exec(p, events), e)
    ensures ValidRun(p, events + [e]) && Exec(p, events + [e]) == Next(Exec(p, events), e)
    decreases |events|
  {
    hide Inv, Enabled, Next;
    if events == [] {
      OneStepRun(p, e);
      assert [] + [e] == [e];
    } else {
      NextKeeps(p, events[0]);
      RunExtended(Next(p, events[0]), events[1..], e);
      assert (events + [e])[1..] == events[1..] + [e];
    }
  }

  /** A run in which no write fails. */
  ghost predicate LeadsTo(from: Pump, events: seq<Event>, p: Pump) {
    && Inv(from) && ValidRun(from, events) && Exec(from, events) == p
    && forall k :: 0 <= k < |events| ==> events[k] != Completing(false)
  }

  lemma Leads(from: Pump, events: seq<Event>, p: Pump, e: Event) returns (q: Pump)
    requires LeadsTo(from, events, p) && Enabled(p, e) && e != Completing(false)
    ensures Inv(p) && q == Next(p, e) && LeadsTo(from, events + [e], q)
  {
    hide Inv, Enabled, Next;
    RunExtended(from, events, e);
    q := Next(p, e);
  }

  lemma NothingLeads(p: Pump)
    requires Inv(p)
    ensures LeadsTo(p, [], p)
  {
    hide Inv;
  }

  const FirstFile := Entry(0, Some(""))
  const FirstEnd := Entry(0, None)
  const SecondFile := Entry(1, Some(""))
  const SecondEnd := Entry(1, None)

  /** Two downloads of nothing accepted at once. */
  const TwoAccepted := Empty.(
    tasks := [Enqueue(FirstFile), Enqueue(FirstEnd), Enqueue(SecondFile), Enqueue(SecondEnd)],
    accepted := [Download(0, ""), Download(1, "")])

  lemma TwoAreAccepted() returns (events: seq<Event>)
    ensures LeadsTo(Empty, events, TwoAccepted)
  {
    hide Inv, Exec, ValidRun;
    EmptyInv();
    NothingLeads(Empty);
    var p := Leads(Empty, [], Empty, Accepting(Download(0, "")));
    events := [] + [Accepting(Download(0, ""))];
    assert p.tasks == [Enqueue(FirstFile), Enqueue(FirstEnd)];
    p := Leads(Empty, events, p, Accepting(Download(1, "")));
    events := events + [Accepting(Download(1, ""))];
    assert p.tasks == TwoAccepted.tasks && p.accepted == TwoAccepted.accepted;
  }

  ghost predicate OwnEvents(events: seq<Event>) {
    forall k :: 0 <= k < |events| ==> events[k] == Running || events[k] == Completing(true)
  }

  /** All four entries are in the buffer, and the first send step is posted. */
  const Overlapping := TwoAccepted.(
    tasks := [Send(0)], buffer := [FirstFile, FirstEnd, SecondFile, SecondEnd])

  lemma OverlapBegins(from: Pump, before: seq<Event>) returns (own: seq<Event>)
    requires LeadsTo(from, before, TwoAccepted)
    ensures LeadsTo(from, before + own, Overlapping) && OwnEvents(own)
  {
    hide Inv, Exec, ValidRun;
    var p := Leads(from, before, TwoAccepted, Running);
    own := [Running];
    assert p.tasks == [Enqueue(FirstEnd), Enqueue(SecondFile), Enqueue(SecondEnd), Send(0)] && p.buffer == [FirstFile];
    p := Leads(from, before + own, p, Running);
    assert before + own + [Running] == before + (own + [Running]);
    own := own + [Running];
    assert p.tasks == [Enqueue(SecondFile), Enqueue(SecondEnd), Send(0)] && p.buffer == [FirstFile, FirstEnd];
    p := Leads(from, before + own, p, Running);
    assert before + own + [Running] == before + (own + [Running]);
    own := own + [Running];
    assert p.tasks == [Enqueue(SecondEnd), Send(0)] && p.buffer == [FirstFile, FirstEnd, SecondFile];
    p := Leads(from, before + own, p, Running);
    assert before + own + [Running] == before + (own + [Running]);
    own := own + [Running];
    assert p.tasks == [Send(0)] && p.buffer == [FirstFile, FirstEnd, SecondFile, SecondEnd];
    assert p == Overlapping;
  }

  /** From there the pump stalls by itself, with the second file unsent. */
  lemma OverlapEnds(from: Pump, before: seq<Event>) returns (own: seq<Event>, p: Pump)
    requires LeadsTo(from, before, Overlapping)
    ensures LeadsTo(from, before + own, p) && OwnEvents(own)
    ensures Stalled(p) && p.completed == [0] && p.accepted == [Download(0, ""), Download(1, "")]
  {
    hide Inv, Exec, ValidRun;
    p := Leads(from, before, Overlapping, Running);
    own := [Running];
    assert p.tasks == [] && p.inflight == Some(Write(0, "", 0));
    p := Leads(from, before + own, p, Completing(true));
    assert before + own + [Completing(true)] == before + (own + [Completing(true)]);
    own := own + [Completing(true)];
    assert p.tasks == [Send(0)] && p.buffer == [FirstEnd, SecondFile, SecondEnd];
    p := Leads(from, before + own, p, Running);
    assert before + own + [Running] == before + (own + [Running]);
    own := own + [Running];
    assert p.tasks == [] && p.buffer == [SecondFile, SecondEnd];
    NoTask();
  }

  lemma OverlapRuns(from: Pump, before: seq<Event>) returns (own: seq<Event>, p: Pump)
    requires LeadsTo(from, before, TwoAccepted)
    ensures LeadsTo(from, before + own, p) && OwnEvents(own)
    ensures Stalled(p) && p.completed == [0] && p.accepted == [Download(0, ""), Download(1, "")]
  {
    hide LeadsTo, Stalled;
    var first := OverlapBegins(from, before);
    var second;
    second, p := OverlapEnds(from, before + first);
    own := first + second;
    assert before + first + second == before + own;
  }

  /** Without any failed write, two overlapping downloads stall the pump: the second is never sent. */
  lemma OverlapStalls() returns (events: seq<Event>, p: Pump)
    ensures LeadsTo(Empty, events, p) && Stalled(p)
    ensures p.completed == [0] && p.accepted == [Download(0, ""), Download(1, "")]
  {
    hide LeadsTo, Stalled;
    events := TwoAreAccepted();
    var own;
    own, p := OverlapRuns(Empty, events);
    events := events + own;
  }

  lemma StalledStep(p: Pump, e: Event)
    requires Inv(p) && Stalled(p) && Enabled(p, e)
    ensures Next(p, e).completed == p.completed && Next(p, e).got == p.got
  {
    hide Pending, Ahead, Layout, Rest, Delivery;
  }

  /** A stalled pump delivers nothing more, not even what is accepted later. */
  lemma {:induction false} StallIsFinal(p: Pump, events: seq<Event>)
    requires Inv(p) && Stalled(p) && ValidRun(p, events)
    ensures Exec(p, events).completed == p.completed && Exec(p, events).got == p.got
    decreases |events|
  {
    hide Inv, Stalled, Active;
    if events != [] {
      StalledStep(p, events[0]);
      NextKeeps(p, events[0]);
      var one := events[..1];
      OneStepRun(p, events[0]);
      StallsIff(p, [events[0]]);
      StallIsFinal(Next(p, events[0]), events[1..]);
    }
  }

  lemma OneStepRun(p: Pump, e: Event)
    requires Inv(p) && Enabled(p, e)
    ensures ValidRun(p, [e]) && Exec(p, [e]) == Next(p, e)
  {
    hide Inv, Enabled, Next;
    NextKeeps(p, e);
    assert [e][1..] == [];
  }

  // ---------------------------------------------------------------- delivery without overlap

  /** Nothing is posted, buffered or being written. */
  predicate Quiet(p: Pump) {
    p.tasks == [] && p.buffer == [] && p.inflight.None?
  }

  /**
   Downloads are accepted one at a time, each on an open socket, no write fails, and nobody
   else closes the socket of the download under way.
   */
  ghost predicate SoloStep(p: Pump, e: Event) {
    match e
    case Accepting(d) => Quiet(p) && d.id !in p.closed
    case Completing(ok) => ok
    case Closing(id) => p.served < |p.accepted| ==> id != p.accepted[p.served].id
    case _ => true
  }

  ghost predicate SoloRun(p: Pump, events: seq<Event>)
    requires Inv(p) && ValidRun(p, events)
    decreases |events|
  {
    events == [] ||
    (SoloStep(p, events[0]) && (NextKeeps(p, events[0]); SoloRun(Next(p, events[0]), events[1..])))
  }

  /** At most one download is under way, its socket is open, and the pump was never cut short. */
  ghost predicate Solo(p: Pump) {
    && !p.cutShort && |p.accepted| <= p.served + 1
    && (p.served < |p.accepted| ==> p.accepted[p.served].id !in p.closed)
  }

  lemma QuietIsServed(p: Pump)
    requires Inv(p) && Quiet(p)
    ensures p.served == |p.accepted| && !p.half
  {
    hide Layout, Ahead, Delivery;
    assert |Layout(p.accepted[p.served..])| == 2 * (|p.accepted| - p.served);
  }

  lemma SoloRest(p: Pump)
    requires Inv(p) && Solo(p) && p.half
    ensures |p.buffer| == 1
  {
    hide Layout, Ahead, Delivery;
    assert |p.buffer + Pending(p.tasks)| == 1;
  }

  lemma SoloStepKeeps(p: Pump, e: Event)
    requires Inv(p) && Solo(p) && Enabled(p, e) && SoloStep(p, e)
    ensures Solo(Next(p, e))
  {
    hide Pending, Layout, Rest, Ahead, Delivery;
    var q := Next(p, e);
    CutShortIffStops(p, e);
    match e
    case Accepting(d) =>
      QuietIsServed(p);
    case Running =>
      if p.tasks[0].Send? {
        TaskHead(p);
        assert (p.buffer + Pending(p.tasks)) != [];
        FrontIs(p);
        if p.half {
          SoloRest(p);
          assert Sends(p.tasks)[0] == p.tasks[0].sock == p.accepted[p.served].id;
          assert q.closed == p.closed + {p.accepted[p.served].id};
        }
      }
    case Transferring(k) =>
    case Completing(ok) =>
    case Closing(id) =>
  }

  function Bytes(es: seq<Entry>): nat {
    if es == [] then 0
    else (if es[0].payload.Some? then |es[0].payload.value| else 0) + Bytes(es[1..])
  }

  /** An upper bound on the error-free steps left when nothing new is accepted. */
  function Measure(p: Pump): int {
    4 * |Pending(p.tasks)| + |Sends(p.tasks)| + 2 * |p.buffer| + Bytes(p.buffer + Pending(p.tasks))
    - (if p.inflight.Some? then p.inflight.value.done else 0)
  }

  predicate Internal(e: Event) {
    e.Running? || e.Transferring? || (e.Completing? && e.ok)
  }

  lemma MeasureNonNegative(p: Pump)
    requires Inv(p)
    ensures 0 <= Measure(p)
  {
    hide Layout, Sends, Pending, Ahead, Rest, Delivery;
    if p.inflight.Some? {
      assert (p.buffer + Pending(p.tasks)) != [];
      FrontIs(p);
      assert (p.buffer + Pending(p.tasks))[0] == p.buffer[0];
    }
  }

  lemma EnqueueDecreases(p: Pump)
    requires Inv(p) && p.tasks != [] && p.tasks[0].Enqueue?
    ensures Measure(RunEnqueue(p)) < Measure(p)
  {
    hide Layout, Sends, Pending, Ahead, Rest, Delivery, OneActivity, Bytes;
    var q := RunEnqueue(p);
    var e, rest := p.tasks[0].entry, p.tasks[1..];
    TaskHead(p);
    SendIs(e.owner);
    NoTask();
    TasksAppend(rest, if p.buffer == [] then [Send(e.owner)] else []);
    assert p.buffer + Pending(p.tasks) == q.buffer + Pending(q.tasks);
  }

  lemma SendDecreases(p: Pump)
    requires Inv(p) && p.tasks != [] && p.tasks[0].Send? && p.buffer != []
    ensures Measure(RunSend(p)) < Measure(p)
  {
    hide Layout, Sends, Pending, Ahead, Rest, Delivery;
    TaskHead(p);
    var q := RunSend(p);
    if p.buffer[0].payload.None? {
      assert (p.buffer + Pending(p.tasks))[1..] == q.buffer + Pending(q.tasks);
    } else {
      assert p.buffer + Pending(p.tasks) == q.buffer + Pending(q.tasks);
    }
  }

  lemma CompleteDecreases(p: Pump)
    requires Inv(p) && Enabled(p, Completing(true)) && p.buffer != []
    ensures Measure(Complete(p, true)) < Measure(p)
  {
    hide Layout, Sends, Pending, Ahead, Rest, Delivery;
    var q := Complete(p, true);
    var w := p.inflight.value;
    SendIs(w.sock);
    TasksAppend(p.tasks, [Send(w.sock)]);
    assert p.tasks + [] == p.tasks;
    assert (p.buffer + Pending(p.tasks)) != [];
    FrontIs(p);
    assert (p.buffer + Pending(p.tasks))[1..] == q.buffer + Pending(q.tasks);
  }

  lemma MeasureDecreases(p: Pump, e: Event)
    requires Inv(p) && Enabled(p, e) && Internal(e)
    ensures Measure(Next(p, e)) < Measure(p)
  {
    hide Inv, Sends, Pending, Measure, Bytes;
    match e
    case Running =>
      if p.tasks[0].Enqueue? { EnqueueDecreases(p); } else { RunSendKeeps(p); SendDecreases(p); }
    case Transferring(k) => TransferDecreases(p, k);
    case Completing(ok) => CompleteKeeps(p, ok); CompleteDecreases(p);
  }

  lemma TransferDecreases(p: Pump, k: nat)
    requires Inv(p) && Enabled(p, Transferring(k))
    ensures Measure(Transfer(p, k)) < Measure(p)
  {
    hide Inv, Sends, Pending, Bytes;
  }

  /** A pump that is not stalled and whose socket is open can move on until it is quiet. */
  lemma MovesUntilQuiet(p: Pump) returns (e: Event)
    requires Inv(p) && !p.cutShort && !Quiet(p)
    requires p.inflight.Some? ==> p.inflight.value.sock !in p.closed
    ensures Enabled(p, e) && Internal(e)
  {
    hide Layout, Pending, Ahead, Rest, Delivery;
    if p.tasks != [] {
      e := Running;
    } else {
      var w := p.inflight.value;
      e := if w.done == |w.data| then Completing(true) else Transferring(1);
    }
  }

  ghost predicate InternalRun(events: seq<Event>) {
    forall k :: 0 <= k < |events| ==> Internal(events[k])
  }

  /** Every file was received whole, every socket closed, every download answered by one 226, in order. */
  ghost predicate AllDelivered(p: Pump) {
    && Quiet(p) && p.completed == Ids(p.accepted)
    && forall i :: 0 <= i < |p.accepted| ==>
         Got(p, p.accepted[i].id) == p.accepted[i].bytes && p.accepted[i].id in p.closed
  }

  lemma QuietIsDelivered(p: Pump)
    requires Inv(p) && Quiet(p)
    ensures AllDelivered(p)
  {
    hide Layout, Ahead, Rest, OneActivity, Pending;
    QuietIsServed(p);
  }

  lemma {:induction false} SoloRunKeeps(p: Pump, events: seq<Event>)
    requires Inv(p) && Solo(p) && ValidRun(p, events) && SoloRun(p, events)
    ensures Solo(Exec(p, events))
    decreases |events|
  {
    hide Inv, Solo, SoloStep;
    if events != [] {
      SoloStepKeeps(p, events[0]);
      NextKeeps(p, events[0]);
      SoloRunKeeps(Next(p, events[0]), events[1..]);
    }
  }

  lemma {:induction false} InternalFromSolo(p: Pump, events: seq<Event>)
    requires Inv(p) && Solo(p) && ValidRun(p, events) && InternalRun(events)
    ensures |events| <= Measure(p)
    ensures Solo(Exec(p, events)) && Exec(p, events).accepted == p.accepted
    decreases |events|
  {
    hide Inv, Solo, Measure;
    if events == [] {
      MeasureNonNegative(p);
    } else {
      SoloStepKeeps(p, events[0]);
      NextKeeps(p, events[0]);
      MeasureDecreases(p, events[0]);
      InternalFromSolo(Next(p, events[0]), events[1..]);
    }
  }

  /**
   Downloads that do not overlap and meet no error: after every such run, every further run
   without new downloads is bounded, and one that cannot be continued has delivered every file,
   closed every socket, posted exactly one 226 for each, and left nothing pending.
   */
  lemma SoloDownloadsDelivered(before: seq<Event>, after: seq<Event>)
    requires Inv(Empty) && ValidRun(Empty, before) && SoloRun(Empty, before)
    requires ValidRun(Exec(Empty, before), after) && InternalRun(after)
    ensures var p := Exec(Empty, before);
            var q := Exec(p, after);
            && |after| <= Measure(p)
            && q.accepted == p.accepted
            && ((forall e :: Internal(e) ==> !Enabled(q, e)) ==> AllDelivered(q))
  {
    hide Inv, Measure, Internal, Quiet, AllDelivered;
    var p := Exec(Empty, before);
    assert Solo(Empty);
    SoloRunKeeps(Empty, before);
    InternalFromSolo(p, after);
    var q := Exec(p, after);
    SocketOpen(q);
    if forall e :: Internal(e) ==> !Enabled(q, e) {
      if Quiet(q) {
        QuietIsDelivered(q);
      } else {
        var e := MovesUntilQuiet(q);
      }
    }
  }

  lemma SocketOpen(p: Pump)
    requires Inv(p) && Solo(p)
    ensures !p.cutShort && (p.inflight.Some? ==> p.inflight.value.sock !in p.closed)
  {
  }

  /** Nothing more can happen by itself, though no socket being written to was closed. */
  ghost predicate AtRest(p: Pump) {
    && (forall e :: Internal(e) ==> !Enabled(p, e))
    && (p.inflight.Some? ==> p.inflight.value.sock !in p.closed)
  }

  /**
   A run that has come to rest has delivered and answered everything exactly if none of its steps
   was a failed write or popped a terminator in front of other entries.
   */
  lemma RestsDeliveredIff(events: seq<Event>)
    requires Inv(Empty) && ValidRun(Empty, events) && AtRest(Exec(Empty, events))
    ensures AllDelivered(Exec(Empty, events)) <==> !StopsSomewhere(Empty, events)
  {
    hide Inv, AllDelivered, Quiet, Active, Internal, Enabled, StopsSomewhere;
    var q := Exec(Empty, events);
    StallsIff(Empty, events);
    CutShortIsStalled(q);
    if Quiet(q) {
      QuietIsDelivered(q);
    } else if !q.cutShort {
      var e := MovesUntilQuiet(q);
    }
    DeliveredIsQuiet(q);
    assert !Stalled(Empty);
  }

  lemma CutShortIsStalled(p: Pump)
    requires Inv(p)
    ensures p.cutShort <==> Stalled(p)
  {
    hide Active, Delivery, OneActivity, Counts, Rest, Pending;
  }

  lemma DeliveredIsQuiet(p: Pump)
    ensures AllDelivered(p) ==> Quiet(p)
    ensures Quiet(p) ==> !Stalled(p)
  {
    hide Got;
  }
}
