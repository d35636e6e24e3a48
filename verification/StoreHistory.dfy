/** The store as the outcome of its history of successful changes. */
module StoreHistory {
  import opened SessionModel
  import MemoryFs

  function Applied(files: MemoryFs.Files, op: StoreOp): MemoryFs.Files {
    match op
    case NoOp => files
    case AddFile(path, file, _) => MemoryFs.Added(files, path, file)
    case RemoveFile(path, _) => MemoryFs.Removed(files, path)
  }

  /** The store lets the change happen. */
  predicate Applies(files: MemoryFs.Files, op: StoreOp) {
    match op
    case NoOp => false
    case AddFile(path, _, _) => path !in files
    case RemoveFile(path, _) => path in files
  }

  function Replay(ops: seq<StoreOp>): MemoryFs.Files {
    if ops == [] then map[] else Applied(Replay(ops[..|ops| - 1]), ops[|ops| - 1])
  }

  ghost predicate Applicable(ops: seq<StoreOp>) {
    forall k :: 0 <= k < |ops| ==> Applies(Replay(ops[..k]), ops[k])
  }

  lemma ReplayAppend(ops: seq<StoreOp>, op: StoreOp)
    requires Applicable(ops)
    ensures Replay(ops + [op]) == Applied(Replay(ops), op)
    ensures Applies(Replay(ops), op) ==> Applicable(ops + [op])
  {
    hide Applied, Applies;
    var longer := ops + [op];
    assert longer[..|ops|] == ops;
    if Applies(Replay(ops), op) {
      forall k | 0 <= k < |longer| ensures Applies(Replay(longer[..k]), longer[k]) {
        assert longer[..k] == ops[..k] || k == |ops|;
        assert k < |ops| ==> longer[k] == ops[k];
      }
    }
  }

  predicate Concerns(op: StoreOp, path: string) {
    op != NoOp && op.path == path
  }

  /** The changes of one path, in order. */
  function OnPath(ops: seq<StoreOp>, path: string): seq<StoreOp> {
    if ops == [] then []
    else OnPath(ops[..|ops| - 1], path) + if Concerns(ops[|ops| - 1], path) then [ops[|ops| - 1]] else []
  }

  /** Adds and removes take turns, beginning with an add. */
  ghost predicate Alternates(ops: seq<StoreOp>) {
    forall k :: 0 <= k < |ops| ==> TakesTurn(ops, k)
  }

  ghost predicate TakesTurn(ops: seq<StoreOp>, k: nat)
    requires k < |ops|
  {
    if k == 0 || ops[k - 1].RemoveFile? then ops[k].AddFile? else ops[k].RemoveFile?
  }

  lemma AlternatesAppend(ops: seq<StoreOp>, op: StoreOp)
    requires Alternates(ops)
    requires if ops == [] || ops[|ops| - 1].RemoveFile? then op.AddFile? else op.RemoveFile?
    ensures Alternates(ops + [op])
  {
    var longer := ops + [op];
    forall k: nat | k < |longer| ensures TakesTurn(longer, k) {
      if k < |ops| {
        assert TakesTurn(ops, k);
      }
    }
  }

  /** The path is there exactly while the latest change of it is an add, and holds what that one added. */
  ghost predicate Reflects(files: MemoryFs.Files, path: string, mine: seq<StoreOp>) {
    && (path in files <==> mine != [] && mine[|mine| - 1].AddFile?)
    && (path in files ==> files[path] == mine[|mine| - 1].file)
  }

  /**
   On every path successful adds and removes strictly alternate, starting with an add, and the
   store reflects the latest of them.
   */
  lemma {:induction false} Alternation(ops: seq<StoreOp>, path: string)
    requires Applicable(ops)
    ensures Alternates(OnPath(ops, path)) && Reflects(Replay(ops), path, OnPath(ops, path))
  {
    hide Alternates, TakesTurn;
    if ops != [] {
      var n := |ops| - 1;
      PrefixApplicable(ops);
      Alternation(ops[..n], path);
      var mine := OnPath(ops[..n], path);
      if Concerns(ops[n], path) {
        LastTurn(mine);
        AlternatesAppend(mine, ops[n]);
      } else {
        assert OnPath(ops, path) == mine;
      }
    } else {
      NoTurns();
    }
  }

  lemma NoTurns()
    ensures Alternates([])
  {
  }

  lemma LastTurn(ops: seq<StoreOp>)
    requires Alternates(ops)
    ensures ops != [] ==> ops[|ops| - 1] != NoOp
  {
    if ops != [] {
      assert TakesTurn(ops, |ops| - 1);
    }
  }

  /** Change k added the file, and no later one removed the path. */
  ghost predicate Stands(ops: seq<StoreOp>, k: nat, path: string, file: string) {
    && k < |ops| && ops[k].AddFile? && ops[k].path == path && ops[k].file == file
    && NotRemovedAfter(ops, k, path)
  }

  /** A file is there exactly if some add of it has no remove of its path behind it. */
  lemma {:induction false} FileIff(ops: seq<StoreOp>, path: string, file: string)
    requires Applicable(ops)
    ensures (path in Replay(ops) && Replay(ops)[path] == file) <==> exists k :: Stands(ops, k, path, file)
  {
    hide Applicable, Stands;
    if ops != [] {
      var n := |ops| - 1;
      PrefixApplicable(ops);
      FileIff(ops[..n], path, file);
      StandsAppended(ops, path, file);
    } else {
      NothingStands(path, file);
    }
  }

  lemma NothingStands(path: string, file: string)
    ensures !exists k :: Stands([], k, path, file)
  {
  }

  /** How the last change decides what stands. */
  lemma StandsAppended(ops: seq<StoreOp>, path: string, file: string)
    requires ops != []
    ensures var n := |ops| - 1;
            (exists k :: Stands(ops, k, path, file)) <==>
              || (ops[n].AddFile? && ops[n].path == path && ops[n].file == file)
              || ((exists k :: Stands(ops[..n], k, path, file)) && !(ops[n].RemoveFile? && ops[n].path == path))
  {
    hide NotRemovedAfter;
    var n := |ops| - 1;
    RemovalPrefix(ops, path);
    if ops[n].AddFile? && ops[n].path == path && ops[n].file == file {
      assert Stands(ops, n, path, file);
    }
    if k: nat :| Stands(ops, k, path, file) {
      assert k < n ==> Stands(ops[..n], k, path, file);
    }
    if k: nat :| Stands(ops[..n], k, path, file) {
      assert !(ops[n].RemoveFile? && ops[n].path == path) ==> Stands(ops, k, path, file);
    }
  }

  ghost predicate NotRemovedAfter(ops: seq<StoreOp>, k: nat, path: string) {
    forall j :: k < j < |ops| ==> !(ops[j].RemoveFile? && ops[j].path == path)
  }

  lemma PrefixApplicable(ops: seq<StoreOp>)
    requires Applicable(ops) && ops != []
    ensures Applicable(ops[..|ops| - 1]) && Applies(Replay(ops[..|ops| - 1]), ops[|ops| - 1])
  {
    hide Applies, Replay;
    var n := |ops| - 1;
    assert forall k :: 0 <= k < n ==> ops[..n][..k] == ops[..k];
  }

  lemma RemovalPrefix(ops: seq<StoreOp>, path: string)
    requires ops != []
    ensures var n := |ops| - 1;
            && NotRemovedAfter(ops, n, path)
            && forall k :: 0 <= k < n ==>
                 (NotRemovedAfter(ops, k, path) <==>
                    NotRemovedAfter(ops[..n], k, path) && !(ops[n].RemoveFile? && ops[n].path == path))
  {
    var n := |ops| - 1;
    forall k: nat | k < n
      ensures NotRemovedAfter(ops, k, path) <==>
              NotRemovedAfter(ops[..n], k, path) && !(ops[n].RemoveFile? && ops[n].path == path)
    {
      assert forall j :: k < j < n ==> ops[..n][j] == ops[j];
    }
  }
}
