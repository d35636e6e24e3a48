/**
 One STOR transfer (server/object_storage/src/session.cpp, `receiveFile` and `saveFile`) as a
 step machine: the bytes the peer sends arrive in any portions, each read takes a whole chunk
 or what is left when the connection ends, and the assembled file is saved once.
 */
module Upload {
  /** The buffer of one read: 1 MiB. */
  const CHUNK: nat := 1024 * 1024 * 1

  lemma ChunkIsOneMebibyte()
    ensures CHUNK == 0x10_0000
  {
  }

  datatype Phase =
    | Reading     // an asynchronous read is armed
    | SavePosted  // saveFile has posted its task
    | Saved       // the task has run

  datatype Upload = Upload(
    path: string,
    file: string,    // the shared file the chunks are appended to
    phase: Phase,
    stream: string,  // everything that arrived on the data socket
    consumed: nat,   // how much of it completed reads have taken
    ended: bool,     // the connection has ended
    readCount: nat   // history: completed reads
  )

  function Start(path: string): Upload {
    Upload(path, "", Reading, "", 0, false, 0)
  }

  function Arrive(u: Upload, bytes: string): Upload {
    u.(stream := u.stream + bytes)
  }

  function End(u: Upload): Upload {
    u.(ended := true)
  }

  /** The armed read can complete: a whole chunk is there, or the connection has ended. */
  predicate Readable(u: Upload) {
    u.phase == Reading && u.consumed <= |u.stream| && (u.ended || |u.stream| - u.consumed >= CHUNK)
  }

  /** What the completed read delivers; an end of the connection before a whole chunk is an error. */
  function Chunk(u: Upload): string
    requires Readable(u)
  {
    var left := |u.stream| - u.consumed;
    u.stream[u.consumed..u.consumed + if left >= CHUNK then CHUNK else left]
  }

  /** The read handler: after a whole chunk the next read is armed and then the chunk appended. */
  function Read(u: Upload): Upload
    requires Readable(u)
  {
    var chunk := Chunk(u);
    u.(file := u.file + chunk,
       consumed := u.consumed + |chunk|,
       readCount := u.readCount + 1,
       phase := if |chunk| == CHUNK then Reading else SavePosted)
  }

  function Save(u: Upload): Upload {
    u.(phase := Saved)
  }

  ghost predicate Inv(u: Upload) {
    && u.consumed <= |u.stream| && u.file == u.stream[..u.consumed]
    && (u.phase == Reading ==> u.consumed == CHUNK * u.readCount)
    && (u.phase != Reading ==>
          && u.ended && u.consumed == |u.stream| && u.readCount > 0
          && CHUNK * (u.readCount - 1) <= |u.stream| < CHUNK * u.readCount)
  }

  datatype Event = Arriving(bytes: string) | Ending | Completing | Saving

  /** Nothing arrives after the end; the steps that need the upload's progress say so. */
  predicate Enabled(u: Upload, e: Event) {
    match e
    case Arriving(_) => !u.ended
    case Ending => !u.ended
    case Completing => Readable(u)
    case Saving => u.phase == SavePosted
  }

  function Next(u: Upload, e: Event): Upload
    requires Enabled(u, e)
  {
    match e
    case Arriving(bytes) => Arrive(u, bytes)
    case Ending => End(u)
    case Completing => Read(u)
    case Saving => Save(u)
  }

  lemma NextKeeps(u: Upload, e: Event)
    requires Inv(u) && Enabled(u, e)
    ensures Inv(Next(u, e))
  {
    var v := Next(u, e);
    match e
    case Arriving(bytes) =>
      assert v.stream[..u.consumed] == u.stream[..u.consumed];
    case Ending =>
    case Completing =>
      assert v.file == u.stream[..v.consumed];
    case Saving =>
  }

  ghost predicate ValidRun(u: Upload, events: seq<Event>)
    decreases |events|
  {
    events == [] || (Enabled(u, events[0]) && ValidRun(Next(u, events[0]), events[1..]))
  }

  ghost function Exec(u: Upload, events: seq<Event>): Upload
    requires ValidRun(u, events)
    decreases |events|
  {
    if events == [] then u else Exec(Next(u, events[0]), events[1..])
  }

  /** The bytes that arrive during a run. */
  function Arrived(events: seq<Event>): string {
    if events == [] then ""
    else (if events[0].Arriving? then events[0].bytes else "") + Arrived(events[1..])
  }

  lemma NextStream(u: Upload, e: Event)
    requires Enabled(u, e)
    ensures Next(u, e).stream == u.stream + (if e.Arriving? then e.bytes else "") && Next(u, e).path == u.path
  {
  }

  lemma {:induction false} RunFrom(u: Upload, events: seq<Event>)
    requires Inv(u) && ValidRun(u, events)
    ensures Inv(Exec(u, events)) && Exec(u, events).stream == u.stream + Arrived(events)
    ensures Exec(u, events).path == u.path
    decreases |events|
  {
    hide Inv, Enabled, Next;
    if events == [] {
      assert u.stream + "" == u.stream;
    } else {
      NextKeeps(u, events[0]);
      NextStream(u, events[0]);
      RunFrom(Next(u, events[0]), events[1..]);
      var first := if events[0].Arriving? then events[0].bytes else "";
      assert (u.stream + first) + Arrived(events[1..]) == u.stream + (first + Arrived(events[1..]));
    }
  }

  /**
   In whatever portions the bytes arrive, and however their number relates to the chunk size, a
   file that is handed to the store is exactly those bytes, read in |bytes| / CHUNK + 1 reads.
   */
  lemma SavedFileIsStream(path: string, events: seq<Event>)
    requires ValidRun(Start(path), events)
    ensures var u := Exec(Start(path), events);
            u.phase != Reading ==> u.file == Arrived(events) && u.readCount == |u.file| / CHUNK + 1
  {
    RunFrom(Start(path), events);
    var u := Exec(Start(path), events);
    if u.phase != Reading {
      assert u.stream[..u.consumed] == u.stream;
      QuotientIs(|u.stream|, u.readCount - 1);
    }
  }

  lemma QuotientIs(n: nat, q: nat)
    requires CHUNK * q <= n < CHUNK * (q + 1)
    ensures n / CHUNK == q
  {
  }

  /** How many reads it takes until the connection's end shows, with this many bytes left. */
  function ReadsLeft(left: nat): (n: nat)
    ensures n > 0
    decreases left
  {
    if left >= CHUNK then 1 + ReadsLeft(left - CHUNK) else 1
  }

  function Completions(n: nat): seq<Event> {
    if n == 0 then [] else [Completing] + Completions(n - 1)
  }

  /** One read after the end: it can complete, and takes a whole chunk or leads to saving. */
  lemma EndedRead(u: Upload)
    requires Inv(u) && u.ended && u.phase == Reading
    ensures Readable(u) && Inv(Read(u)) && Read(u).ended && Read(u).stream == u.stream
    ensures if |u.stream| - u.consumed < CHUNK then Read(u).phase == SavePosted
            else Read(u).phase == Reading && Read(u).consumed == u.consumed + CHUNK
  {
    NextKeeps(u, Completing);
  }

  /**
   Once the connection has ended, reads complete until the file is whole and its saving posted:
   exactly `ReadsLeft` of them, and then no more. No byte is left behind.
   */
  lemma {:induction false} EndedUploadIsSaved(u: Upload)
    requires Inv(u) && u.ended && u.phase == Reading
    ensures var n := ReadsLeft(|u.stream| - u.consumed);
            && ValidRun(u, Completions(n))
            && var v := Exec(u, Completions(n));
               && v.phase == SavePosted && v.file == u.stream && v.path == u.path
               && Enabled(v, Saving) && !Enabled(v, Completing)
    decreases |u.stream| - u.consumed
  {
    var left := |u.stream| - u.consumed;
    var n := ReadsLeft(left);
    EndedRead(u);
    var v := Read(u);
    assert Completions(n)[0] == Completing && Completions(n)[1..] == Completions(n - 1);
    if left >= CHUNK {
      EndedUploadIsSaved(v);
    } else {
      assert Completions(0) == [];
      assert v.stream[..v.consumed] == v.stream;
    }
  }

  ghost predicate OnlyCompletions(events: seq<Event>) {
    forall k :: 0 <= k < |events| ==> events[k].Completing?
  }

  /** No run of completed reads is longer. */
  lemma {:induction false} EndedReadsBounded(u: Upload, events: seq<Event>)
    requires Inv(u) && u.ended && u.phase == Reading && ValidRun(u, events) && OnlyCompletions(events)
    ensures |events| <= ReadsLeft(|u.stream| - u.consumed)
    decreases |events|
  {
    if events != [] {
      EndedRead(u);
      var v := Read(u);
      assert Next(u, events[0]) == v;
      if v.phase == Reading {
        EndedReadsBounded(v, events[1..]);
      } else {
        assert |events| > 1 ==> !Enabled(v, events[1]);
        NothingBehind(v, events[1..]);
      }
    }
  }

  lemma NothingBehind(v: Upload, events: seq<Event>)
    requires v.phase != Reading && ValidRun(v, events) && OnlyCompletions(events)
    ensures events == []
  {
  }
}
