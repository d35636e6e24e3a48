/**
 The whole server: any number of sessions whose steps interleave freely on one store and one
 user table, which may gain users at any time.
 */
module Server {
  import opened Wrappers
  import opened SessionModel
  import opened SessionHistories
  import opened SessionStore
  import opened StoreHistory
  import F = FtpCommands
  import MemoryFs
  import R = SessionRuns
  import U = UserDatabase

  datatype World = World(
    files: MemoryFs.Files,
    users: U.Users,
    authenticate: bool,
    sessions: seq<Session>,
    ops: seq<StoreOp>,   // history: successful changes of the store
    makers: seq<nat>     // history: the session that made each
  )

  function Empty(authenticate: bool): World {
    World(map[], map[], authenticate, [], [], [])
  }

  /** What the network and the store's hash table decide in a step. */
  datatype Chance = Chance(listing: seq<string>, endpoint: Option<F.Endpoint>, openAfterFailure: bool)

  datatype Turn =
    | Connect(greet: bool)
    | AddUser(user: U.User)
    | In(i: nat, chance: Chance, event: Event)

  function EnvOf(w: World, chance: Chance): Env {
    Env(F.Env(w.users, w.files, chance.listing, chance.endpoint, chance.openAfterFailure), w.authenticate)
  }

  ghost predicate TurnEnabled(w: World, turn: Turn) {
    match turn
    case Connect(_) => true
    case AddUser(_) => true
    case In(i, chance, event) =>
      && i < |w.sessions| && MemoryFs.IsListing(w.files, chance.listing)
      && Enabled(w.sessions[i], EnvOf(w, chance), event)
  }

  // ---------------------------------------------------------------- what every run keeps

  /** Every session keeps its own invariant, and trusts only what the user table supports. */
  ghost predicate SessionsSound(w: World) {
    forall i :: 0 <= i < |w.sessions| ==> Inv(w.sessions[i]) && Trusted(w.sessions[i], w.users, w.authenticate)
  }

  /** The store is what its history of changes makes it. */
  ghost predicate StoreSound(w: World) {
    Applicable(w.ops) && w.files == Replay(w.ops)
  }

  ghost predicate OpSound(w: World, k: nat)
    requires k < |w.ops| == |w.makers|
  {
    && w.makers[k] < |w.sessions|
    && Backed(w.sessions[w.makers[k]], w.ops[k], w.users, w.authenticate)
  }

  /** Every change goes back to the session that made it, and nothing causes two changes. */
  ghost predicate OpsSound(w: World) {
    && |w.ops| == |w.makers|
    && (forall k :: 0 <= k < |w.ops| ==> OpSound(w, k))
    && (forall j, k :: 0 <= j < k < |w.ops| && w.makers[j] == w.makers[k] ==>
          w.ops[j] != NoOp && w.ops[k] != NoOp && w.ops[j].cause != w.ops[k].cause)
  }

  ghost predicate WorldInv(w: World) {
    SessionsSound(w) && StoreSound(w) && OpsSound(w)
  }

  lemma SessionSound(w: World, i: nat)
    requires SessionsSound(w) && i < |w.sessions|
    ensures Inv(w.sessions[i]) && Trusted(w.sessions[i], w.users, w.authenticate)
  {
    hide Inv, Trusted;
  }

  function Recorded(w: World, i: nat, s: Session, op: StoreOp): World
    requires i < |w.sessions|
  {
    var v := w.(sessions := w.sessions[i := s], files := Applied(w.files, op));
    if op == NoOp then v else v.(ops := w.ops + [op], makers := w.makers + [i])
  }

  ghost function Next(w: World, turn: Turn): World
    requires WorldInv(w) && TurnEnabled(w, turn)
  {
    hide Inv;
    match turn
    case Connect(greet) => w.(sessions := w.sessions + [Fresh(greet)])
    case AddUser(user) => w.(users := U.Inserted(w.users, user))
    case In(i, chance, event) =>
      SessionSound(w, i);
      R.InvParts(w.sessions[i]);
      var (s, op) := Step(w.sessions[i], EnvOf(w, chance), event);
      Recorded(w, i, s, op)
  }

  lemma InsertedGrows(users: U.Users, user: U.User)
    ensures Grown(users, U.Inserted(users, user))
  {
  }

  lemma SameGrown(users: U.Users)
    ensures Grown(users, users)
  {
  }

  lemma SameExtends(s: Session)
    ensures Extends(s, s)
  {
    hide FinalCount;
  }

  /** Old operations stay backed while sessions and users only grow. */
  lemma OpsKept(w: World, v: World)
    requires OpsSound(w) && v.ops == w.ops && v.makers == w.makers && v.authenticate == w.authenticate
    requires Grown(w.users, v.users) && |w.sessions| <= |v.sessions|
    requires forall i :: 0 <= i < |w.sessions| ==> Extends(w.sessions[i], v.sessions[i])
    ensures OpsSound(v)
  {
    hide Extends, Grown, Backed;
    forall k | 0 <= k < |v.ops| ensures OpSound(v, k) {
      assert OpSound(w, k);
      var i := w.makers[k];
      BackedGrows(w.sessions[i], v.sessions[i], w.ops[k], w.users, v.users, w.authenticate);
    }
  }

  lemma BackedIsSpent(s: Session, op: StoreOp, users: U.Users, authenticate: bool)
    requires Backed(s, op, users, authenticate) && op != NoOp
    ensures Spent(s, op.cause)
  {
    hide IssuedStor, Admitted, FinalCount;
  }

  lemma OpAdded(w: World, v: World, i: nat, op: StoreOp)
    requires OpsSound(w) && i < |w.sessions| && |v.sessions| == |w.sessions|
    requires v.users == w.users && v.authenticate == w.authenticate
    requires v.ops == w.ops + [op] && v.makers == w.makers + [i] && op != NoOp
    requires forall x :: 0 <= x < |w.sessions| ==> Extends(w.sessions[x], v.sessions[x])
    requires Backed(v.sessions[i], op, w.users, w.authenticate) && !Spent(w.sessions[i], op.cause)
    requires forall k :: 0 <= k < |w.ops| ==> w.ops[k] != NoOp
    ensures OpsSound(v)
  {
    hide Extends, Backed, Spent;
    var n := |w.ops|;
    OpsKept(w, v.(ops := w.ops, makers := w.makers)) by {
      SameGrown(w.users);
    }
    var u := v.(ops := w.ops, makers := w.makers);
    forall k: nat | k <= n ensures OpSound(v, k) {
      if k < n {
        assert OpSound(u, k);
        assert v.ops[k] == u.ops[k] && v.makers[k] == u.makers[k];
      }
    }
    forall j: nat | j < n && w.makers[j] == i ensures w.ops[j].cause != op.cause {
      assert OpSound(w, j);
      BackedIsSpent(w.sessions[i], w.ops[j], w.users, w.authenticate);
    }
  }

  lemma NoNoOps(w: World)
    requires StoreSound(w)
    ensures forall k :: 0 <= k < |w.ops| ==> w.ops[k] != NoOp
  {
    hide Replay;
    forall k | 0 <= k < |w.ops| ensures w.ops[k] != NoOp {
      assert Applies(Replay(w.ops[..k]), w.ops[k]);
    }
  }

  lemma SessionsKept(w: World, v: World)
    requires SessionsSound(w) && v.authenticate == w.authenticate && Grown(w.users, v.users)
    requires |w.sessions| <= |v.sessions| && v.sessions[..|w.sessions|] == w.sessions
    requires forall i :: |w.sessions| <= i < |v.sessions| ==>
               Inv(v.sessions[i]) && Trusted(v.sessions[i], v.users, v.authenticate)
    ensures SessionsSound(v)
  {
    hide Inv, Trusted, Grown;
    forall i: nat | i < |v.sessions| ensures Inv(v.sessions[i]) && Trusted(v.sessions[i], v.users, v.authenticate) {
      if i < |w.sessions| {
        SessionSound(w, i);
        assert v.sessions[i] == w.sessions[i];
        TrustedGrows(w.sessions[i], w.users, v.users, w.authenticate);
      }
    }
  }

  lemma ConnectKeeps(w: World, greet: bool)
    requires WorldInv(w)
    ensures WorldInv(w.(sessions := w.sessions + [Fresh(greet)]))
  {
    hide Inv, Trusted, Backed, Grown, Extends, Fresh;
    var v := w.(sessions := w.sessions + [Fresh(greet)]);
    FreshInv(greet);
    FreshTrusted(greet, w.users, w.authenticate);
    SameGrown(w.users);
    SessionsKept(w, v);
    forall i | 0 <= i < |w.sessions| ensures Extends(w.sessions[i], v.sessions[i]) {
      SameExtends(w.sessions[i]);
    }
    OpsKept(w, v);
  }

  lemma AddUserKeeps(w: World, user: U.User)
    requires WorldInv(w)
    ensures WorldInv(w.(users := U.Inserted(w.users, user)))
  {
    hide Inv, Trusted, Backed, Grown, Extends, U.Inserted;
    var v := w.(users := U.Inserted(w.users, user));
    InsertedGrows(w.users, user);
    SessionsKept(w, v);
    forall i | 0 <= i < |w.sessions| ensures Extends(w.sessions[i], v.sessions[i]) {
      SameExtends(w.sessions[i]);
    }
    OpsKept(w, v);
  }

  lemma InKeepsSessions(w: World, i: nat, s: Session, op: StoreOp)
    requires SessionsSound(w) && i < |w.sessions|
    requires Inv(s) && Trusted(s, w.users, w.authenticate)
    ensures SessionsSound(Recorded(w, i, s, op))
  {
    hide Inv, Trusted, Applied;
    var v := Recorded(w, i, s, op);
    forall x | 0 <= x < |v.sessions| ensures Inv(v.sessions[x]) && Trusted(v.sessions[x], v.users, v.authenticate) {
      SessionSound(w, x);
    }
  }

  lemma InKeepsStore(w: World, i: nat, s: Session, op: StoreOp)
    requires StoreSound(w) && i < |w.sessions|
    requires op.AddFile? ==> op.path !in w.files
    requires op.RemoveFile? ==> op.path in w.files
    ensures StoreSound(Recorded(w, i, s, op))
  {
    hide Applicable, Replay;
    if op != NoOp {
      ReplayAppend(w.ops, op);
    }
  }

  lemma InKeepsOps(w: World, i: nat, s: Session, op: StoreOp)
    requires OpsSound(w) && i < |w.sessions| && forall k :: 0 <= k < |w.ops| ==> w.ops[k] != NoOp
    requires Extends(w.sessions[i], s) && Backed(s, op, w.users, w.authenticate)
    requires op != NoOp ==> !Spent(w.sessions[i], op.cause)
    ensures OpsSound(Recorded(w, i, s, op))
  {
    hide Extends, Backed, Spent, Applied, OpsSound, Grown;
    var v := Recorded(w, i, s, op);
    forall x | 0 <= x < |w.sessions| ensures Extends(w.sessions[x], v.sessions[x]) {
      SameExtends(w.sessions[x]);
    }
    SameGrown(w.users);
    if op == NoOp {
      OpsKept(w, v);
    } else {
      OpAdded(w, v, i, op);
    }
  }

  lemma InKeeps(w: World, i: nat, env: Env, event: Event)
    requires WorldInv(w) && i < |w.sessions| && Enabled(w.sessions[i], env, event)
    requires env.ftp.users == w.users && env.ftp.files == w.files && env.authenticate == w.authenticate
    ensures Inv(w.sessions[i]) && Defined(w.sessions[i])
    ensures var (s, op) := Step(w.sessions[i], env, event); WorldInv(Recorded(w, i, s, op))
  {
    hide Inv, Trusted, Backed, Grown, Extends, Enabled, Step, Spent, Applicable, Replay, Recorded;
    SessionSound(w, i);
    R.InvParts(w.sessions[i]);
    var s := w.sessions[i];
    StepKeepsInv(s, env, event);
    StepKeepsTrusted(s, env, event);
    StepFounded(s, env, event);
    StepExtends(s, env, event);
    NoNoOps(w);
    var t, op := Step(s, env, event).0, Step(s, env, event).1;
    InKeepsSessions(w, i, t, op);
    InKeepsStore(w, i, t, op);
    InKeepsOps(w, i, t, op);
  }

  lemma NextKeeps(w: World, turn: Turn)
    requires WorldInv(w) && TurnEnabled(w, turn)
    ensures WorldInv(Next(w, turn))
  {
    hide Inv, WorldInv, Enabled, Step, Recorded, MemoryFs.IsListing;
    match turn
    case Connect(greet) => ConnectKeeps(w, greet);
    case AddUser(user) => AddUserKeeps(w, user);
    case In(i, chance, event) => InKeeps(w, i, EnvOf(w, chance), event);
  }

  // ---------------------------------------------------------------- runs

  ghost predicate ValidRun(w: World, turns: seq<Turn>)
    requires WorldInv(w)
    decreases |turns|
  {
    turns == [] ||
    (TurnEnabled(w, turns[0]) && (NextKeeps(w, turns[0]); ValidRun(Next(w, turns[0]), turns[1..])))
  }

  /** Whatever the sessions do and however their steps interleave, the invariant holds throughout. */
  ghost function Exec(w: World, turns: seq<Turn>): (v: World)
    requires WorldInv(w) && ValidRun(w, turns)
    ensures WorldInv(v)
    decreases |turns|
  {
    if turns == [] then w
    else
      NextKeeps(w, turns[0]);
      Exec(Next(w, turns[0]), turns[1..])
  }

  lemma EmptyInv(authenticate: bool)
    ensures WorldInv(Empty(authenticate))
  {
  }
}
