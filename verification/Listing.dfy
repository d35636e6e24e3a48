/** The text of a listing, as built for LIST and for GET / alike. */
module Listing {
  import opened Utils
  import opened HttpSyntax

  /** Every path followed by a newline. */
  function Text(paths: seq<string>): string {
    if paths == [] then "" else paths[0] + "\n" + Text(paths[1..])
  }

  lemma {:induction false} TextAppend(paths: seq<string>, path: string)
    ensures Text(paths + [path]) == Text(paths) + (path + "\n")
  {
    if paths == [] {
      assert [path][1..] == [];
    } else {
      TextAppend(paths[1..], path);
      assert (paths + [path])[1..] == paths[1..] + [path];
    }
  }

  method Build(paths: seq<string>) returns (text: string)
    ensures text == Text(paths)
  {
    text := "";
    for i := 0 to |paths|
      invariant text == Text(paths[..i])
    {
      TextAppend(paths[..i], paths[i]);
      assert paths[..i + 1] == paths[..i] + [paths[i]];
      text := text + (paths[i] + "\n");
    }
    assert paths[..|paths|] == paths;
  }

  lemma {:induction false} TextIsJoin(paths: seq<string>)
    ensures Text(paths) == Join(paths + [""], "\n")
  {
    if paths == [] {
      assert [] + [""] == [""];
    } else {
      TextIsJoin(paths[1..]);
      assert paths + [""] == [paths[0]] + (paths[1..] + [""]);
      JoinCons(paths[0], paths[1..] + [""], "\n");
    }
  }

  /**
   A client that splits the listing at newlines gets the paths back, and an empty text behind the
   last, exactly if there are paths and none of them holds a newline.
   */
  lemma ReadBackIff(paths: seq<string>)
    ensures Tokens(Text(paths), "\n") == paths + [""] <==>
              paths != [] && forall k :: 0 <= k < |paths| ==> '\n' !in paths[k]
  {
    hide Contains, Borderless, Tokens, Text, Join;
    var tokens := paths + [""];
    SingleCharBorderless('\n');
    TextIsJoin(paths);
    TokensOfJoinIff(tokens, "\n");
    forall token ensures Contains(token, "\n") <==> '\n' in token {
      ContainsChar(token, '\n');
    }
    if paths == [] {
      assert tokens == [""];
    } else {
      assert |tokens| >= 2 && tokens != [""];
      assert forall k :: 0 <= k < |paths| ==> tokens[k] == paths[k];
      assert tokens[|paths|] == "";
    }
  }
}
