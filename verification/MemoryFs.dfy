/** The in-memory store (filesystem/memory_fs/src/memory_fs.cpp). Each operation is atomic under its lock. */
module MemoryFs {
  datatype Status = Success | FileNotFound | AlreadyExists

  type Files = map<string, string>

  function Added(files: Files, path: string, file: string): Files {
    if path in files then files else files[path := file]
  }

  function Removed(files: Files, path: string): Files {
    files - {path}
  }

  /** The paths in some order, each once. */
  ghost predicate IsListing(files: Files, list: seq<string>) {
    multiset(list) == multiset(files.Keys)
  }

  lemma RepeatedCounts(list: seq<string>, i: nat, j: nat)
    requires i < j < |list| && list[i] == list[j]
    ensures multiset(list)[list[i]] >= 2
  {
    assert list == list[..j] + list[j..];
    assert list[i] == list[..j][i] && list[j] == list[j..][0];
  }

  /** A listing has as many entries as the store has files, and no entry twice. */
  lemma ListingIsExact(files: Files, list: seq<string>)
    requires IsListing(files, list)
    ensures |list| == |files|
    ensures forall path :: path in list <==> path in files
    ensures forall i, j :: 0 <= i < j < |list| ==> list[i] != list[j]
  {
    assert |multiset(list)| == |list|;
    forall path ensures path in list <==> path in files {
      assert path in list <==> path in multiset(list);
    }
    forall i, j | 0 <= i < j < |list| ensures list[i] != list[j] {
      if list[i] == list[j] {
        RepeatedCounts(list, i, j);
      }
    }
  }

  /** There always is an order in which to list the paths. */
  lemma {:induction false} SomeListing(files: Files) returns (list: seq<string>)
    ensures IsListing(files, list)
    decreases |files|
  {
    if files == map[] {
      list := [];
      assert files.Keys == {};
    } else {
      var path :| path in files;
      var rest := SomeListing(files - {path});
      list := rest + [path];
      assert files.Keys == (files - {path}).Keys + {path};
    }
  }

  class MemoryFs {
    var fs: Files

    constructor ()
      ensures fs == map[]
    {
      fs := map[];
    }

    predicate Exists(path: string)
      reads this
    {
      path in fs
    }

    method Get(path: string) returns (status: Status, file: string)
      ensures status == if path in fs then Success else FileNotFound
      ensures file == if path in fs then fs[path] else ""
    {
      if !Exists(path) {
        return FileNotFound, "";
      }
      return Success, fs[path];
    }

    method Add(path: string, file: string) returns (status: Status)
      modifies this
      ensures fs == Added(old(fs), path, file)
      ensures fs == if path in old(fs) then old(fs) else old(fs)[path := file]
      ensures status == if path in old(fs) then AlreadyExists else Success
    {
      if Exists(path) {
        return AlreadyExists;
      }
      fs := fs[path := file];
      return Success;
    }

    method List() returns (list: seq<string>)
      ensures IsListing(fs, list)
    {
      list := [];
      var rest := fs.Keys;
      while rest != {}
        invariant rest <= fs.Keys
        invariant multiset(list) == multiset(fs.Keys - rest)
        decreases rest
      {
        var path :| path in rest;
        assert fs.Keys - (rest - {path}) == (fs.Keys - rest) + {path};
        list := list + [path];
        rest := rest - {path};
      }
    }

    method Remove(path: string) returns (status: Status)
      modifies this
      ensures fs == Removed(old(fs), path)
      ensures path !in fs && forall other :: other != path ==>
                (other in fs <==> other in old(fs)) && (other in fs ==> fs[other] == old(fs)[other])
      ensures status == if path in old(fs) then Success else FileNotFound
    {
      status := if path in fs then Success else FileNotFound;
      fs := fs - {path};
    }
  }
}
