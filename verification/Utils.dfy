/**
 Text helpers (utils/src/utils.cpp): splitting on a delimiter and ASCII case folding.
 Bytes of a std::string are the elements of a Dafny string.
 */
module Utils {
  /** std::string::npos */
  const NPOS := -1

  /** The pattern occupies text[at..at + |pattern|]. */
  predicate OccursAt(text: string, pattern: string, at: int) {
    0 <= at <= |text| - |pattern| && text[at..at + |pattern|] == pattern
  }

  ghost predicate Contains(text: string, pattern: string) {
    exists at :: OccursAt(text, pattern, at)
  }

  /** No occurrence starts in the range. */
  ghost predicate AbsentBetween(text: string, pattern: string, from: int, to: int) {
    forall at :: from <= at < to ==> !OccursAt(text, pattern, at)
  }

  /** std::string_view::find: the least position at or after `from` where the pattern occurs, or NPOS. */
  function Find(text: string, pattern: string, from: nat): (at: int)
    ensures at == NPOS ==> AbsentBetween(text, pattern, from, |text| + 1)
    ensures at != NPOS ==> from <= at && OccursAt(text, pattern, at) && AbsentBetween(text, pattern, from, at)
    decreases |text| + 1 - from
  {
    if from + |pattern| > |text| then NPOS
    else if OccursAt(text, pattern, from) then from
    else Find(text, pattern, from + 1)
  }

  lemma FindIs(text: string, pattern: string, from: nat, at: int)
    requires from <= at && OccursAt(text, pattern, at) && AbsentBetween(text, pattern, from, at)
    ensures Find(text, pattern, from) == at
  {
  }

  lemma OccursInSuffix(text: string, pattern: string, from: nat, at: nat)
    requires from <= |text|
    ensures OccursAt(text[from..], pattern, at) <==> OccursAt(text, pattern, from + at)
  {
    if at + |pattern| <= |text| - from {
      assert text[from..][at..at + |pattern|] == text[from + at..from + at + |pattern|];
    }
  }

  lemma OccursInPrefix(text: string, pattern: string, end: nat, at: int)
    requires end <= |text|
    ensures OccursAt(text[..end], pattern, at) <==> at + |pattern| <= end && OccursAt(text, pattern, at)
  {
    if 0 <= at && at + |pattern| <= end {
      assert text[..end][at..at + |pattern|] == text[at..at + |pattern|];
    }
  }

  /** What is found in a text is found in each prefix that still holds it. */
  lemma FindInPrefix(text: string, pattern: string, end: nat)
    requires end <= |text| && Find(text, pattern, 0) != NPOS
    requires Find(text, pattern, 0) + |pattern| <= end || Find(text[..end], pattern, 0) != NPOS
    ensures Find(text[..end], pattern, 0) == Find(text, pattern, 0)
  {
    hide Find, OccursAt;
    var at := Find(text, pattern, 0);
    OccursInPrefix(text, pattern, end, Find(text[..end], pattern, 0));
    OccursInPrefix(text, pattern, end, at);
    forall i | 0 <= i < at ensures !OccursAt(text[..end], pattern, i) {
      OccursInPrefix(text, pattern, end, i);
    }
    FindIs(text[..end], pattern, 0, at);
  }

  lemma FindInSuffix(text: string, pattern: string, from: nat)
    requires from <= |text|
    ensures Find(text[from..], pattern, 0)
         == if Find(text, pattern, from) == NPOS then NPOS else Find(text, pattern, from) - from
  {
    var at := Find(text, pattern, from);
    forall i | 0 <= i ensures OccursAt(text[from..], pattern, i) <==> OccursAt(text, pattern, from + i) {
      OccursInSuffix(text, pattern, from, i);
    }
    if at != NPOS {
      FindIs(text[from..], pattern, 0, at - from);
    }
  }

  // ---------------------------------------------------------------- split

  /** The tokens from a position on, in the order in which the loop of `Split` pushes them. */
  function TokensFrom(text: string, delimiter: string, start: nat): (tokens: seq<string>)
    requires delimiter != "" && start <= |text|
    ensures tokens != []
    decreases |text| - start
  {
    var end := Find(text, delimiter, start);
    if end == NPOS then [text[start..]]
    else [text[start..end]] + TokensFrom(text, delimiter, end + |delimiter|)
  }

  /** What `Split` computes; the empty text has no token at all. */
  function Tokens(text: string, delimiter: string): (tokens: seq<string>)
    requires delimiter != ""
    ensures tokens == [] <==> text == ""
  {
    if text == "" then [] else TokensFrom(text, delimiter, 0)
  }

  lemma TokensFromUnfold(text: string, delimiter: string, start: nat, end: nat)
    requires delimiter != "" && start <= |text| && Find(text, delimiter, start) == end
    ensures start <= end && end + |delimiter| <= |text|
    ensures TokensFrom(text, delimiter, start)
         == [text[start..end]] + TokensFrom(text, delimiter, end + |delimiter|)
  {
    hide Find, AbsentBetween;
  }

  lemma TokensFromLast(text: string, delimiter: string, start: nat)
    requires delimiter != "" && start <= |text| && Find(text, delimiter, start) == NPOS
    ensures TokensFrom(text, delimiter, start) == [text[start..]]
  {
  }

  lemma PushToken(text: string, delimiter: string, tokens: seq<string>, start: nat, end: nat)
    requires delimiter != "" && start <= |text| && Find(text, delimiter, start) == end
    ensures tokens + TokensFrom(text, delimiter, start)
         == (tokens + [text[start..end]]) + TokensFrom(text, delimiter, end + |delimiter|)
    ensures start <= end && end + |delimiter| <= |text|
  {
    TokensFromUnfold(text, delimiter, start, end);
  }

  /** With the tokens pushed so far, the rest of the text still gives all of its tokens. */
  ghost predicate SplitUpTo(text: string, delimiter: string, tokens: seq<string>, start: nat)
    requires delimiter != ""
  {
    start <= |text| && tokens + TokensFrom(text, delimiter, start) == TokensFrom(text, delimiter, 0)
  }

  lemma SplitStep(text: string, delimiter: string, tokens: seq<string>, start: nat, end: nat)
    requires delimiter != "" && SplitUpTo(text, delimiter, tokens, start) && Find(text, delimiter, start) == end
    ensures start <= end && end + |delimiter| <= |text|
    ensures SplitUpTo(text, delimiter, tokens + [text[start..end]], end + |delimiter|)
  {
    hide TokensFrom, Find;
    PushToken(text, delimiter, tokens, start, end);
  }

  lemma SplitDone(text: string, delimiter: string, tokens: seq<string>, start: nat)
    requires delimiter != "" && text != "" && SplitUpTo(text, delimiter, tokens, start)
    requires Find(text, delimiter, start) == NPOS
    ensures tokens + [text[start..]] == Tokens(text, delimiter)
  {
    hide TokensFrom, Find;
    TokensFromLast(text, delimiter, start);
  }

  lemma SplitBegun(text: string, delimiter: string)
    requires delimiter != ""
    ensures SplitUpTo(text, delimiter, [], 0)
  {
    hide TokensFrom, Find;
    assert [] + TokensFrom(text, delimiter, 0) == TokensFrom(text, delimiter, 0);
  }

  method Split(text: string, delimiter: string) returns (tokens: seq<string>)
    requires delimiter != ""
    ensures tokens == Tokens(text, delimiter)
  {
    hide TokensFrom, Find, OccursAt, AbsentBetween, SplitUpTo;
    tokens := [];
    if text != "" {
      var start, end := 0, Find(text, delimiter, 0);
      SplitBegun(text, delimiter);
      while end != NPOS
        invariant start <= |text| && end == Find(text, delimiter, start)
        invariant SplitUpTo(text, delimiter, tokens, start)
        decreases |text| - start
      {
        SplitStep(text, delimiter, tokens, start, end);
        tokens := tokens + [text[start..end]];
        start := end + |delimiter|;
        end := Find(text, delimiter, start);
      }
      SplitDone(text, delimiter, tokens, start);
      tokens := tokens + [text[start..]];
    }
  }

  function Join(tokens: seq<string>, delimiter: string): string {
    if tokens == [] then ""
    else if |tokens| == 1 then tokens[0]
    else tokens[0] + delimiter + Join(tokens[1..], delimiter)
  }

  lemma JoinCons(head: string, tail: seq<string>, delimiter: string)
    requires tail != []
    ensures Join([head] + tail, delimiter) == head + delimiter + Join(tail, delimiter)
  {
    assert ([head] + tail)[1..] == tail;
  }

  lemma {:induction false} JoinOfTokensFrom(text: string, delimiter: string, start: nat)
    requires delimiter != "" && start <= |text|
    ensures Join(TokensFrom(text, delimiter, start), delimiter) == text[start..]
    decreases |text| - start
  {
    var end := Find(text, delimiter, start);
    if end != NPOS {
      var next := end + |delimiter|;
      var head, tail := text[start..end], TokensFrom(text, delimiter, next);
      JoinOfTokensFrom(text, delimiter, next);
      TokensFromUnfold(text, delimiter, start, end);
      JoinCons(head, tail, delimiter);
      assert text[start..] == head + delimiter + text[next..];
    }
  }

  lemma SliceAvoids(text: string, pattern: string, start: nat, end: nat)
    requires pattern != "" && start <= end <= |text| && AbsentBetween(text, pattern, start, end)
    ensures !Contains(text[start..end], pattern)
  {
    var prefix := text[..end];
    forall at ensures !OccursAt(prefix[start..], pattern, at) {
      if OccursAt(prefix[start..], pattern, at) {
        OccursInSuffix(prefix, pattern, start, at);
        OccursInPrefix(text, pattern, end, start + at);
      }
    }
    assert prefix[start..] == text[start..end];
  }

  lemma {:induction false} TokensFromAvoidDelimiter(text: string, delimiter: string, start: nat)
    requires delimiter != "" && start <= |text|
    ensures forall token :: token in TokensFrom(text, delimiter, start) ==> !Contains(token, delimiter)
    decreases |text| - start
  {
    var end := Find(text, delimiter, start);
    if end == NPOS {
      SliceAvoids(text, delimiter, start, |text|);
      assert text[start..] == text[start..|text|];
    } else {
      SliceAvoids(text, delimiter, start, end);
      TokensFromAvoidDelimiter(text, delimiter, end + |delimiter|);
    }
  }

  /** Splitting loses nothing: joining the tokens with the delimiter gives the text back, and no token holds it. */
  lemma TokensPartitionText(text: string, delimiter: string)
    requires delimiter != ""
    ensures Join(Tokens(text, delimiter), delimiter) == text
    ensures forall token :: token in Tokens(text, delimiter) ==> !Contains(token, delimiter)
  {
    if text != "" {
      JoinOfTokensFrom(text, delimiter, 0);
      TokensFromAvoidDelimiter(text, delimiter, 0);
    }
  }

  /** No proper non-empty prefix of the delimiter is also its suffix. */
  ghost predicate Borderless(delimiter: string) {
    forall k :: 0 < k < |delimiter| ==> delimiter[..k] != delimiter[|delimiter| - k..]
  }

  /** Token lists that can come back from a split: none holds the delimiter, and not the lone empty token. */
  ghost predicate Splittable(tokens: seq<string>, delimiter: string) {
    && tokens != [""]
    && forall token :: token in tokens ==> !Contains(token, delimiter)
  }

  lemma {:induction false} TokensFromSuffix(text: string, delimiter: string, start: nat, offset: nat)
    requires delimiter != "" && offset <= start <= |text|
    ensures TokensFrom(text, delimiter, start) == TokensFrom(text[offset..], delimiter, start - offset)
    decreases |text| - start
  {
    hide TokensFrom, Find, OccursAt, AbsentBetween;
    var suffix := text[offset..];
    var end := Find(text, delimiter, start);
    assert suffix[start - offset..] == text[start..];
    FindInSuffix(text, delimiter, start);
    FindInSuffix(suffix, delimiter, start - offset);
    if end == NPOS {
      TokensFromLast(text, delimiter, start);
      TokensFromLast(suffix, delimiter, start - offset);
    } else {
      TokensFromUnfold(text, delimiter, start, end);
      TokensFromUnfold(suffix, delimiter, start - offset, end - offset);
      assert suffix[start - offset..end - offset] == text[start..end];
      TokensFromSuffix(text, delimiter, end + |delimiter|, offset);
    }
  }

  /** An occurrence that starts inside the token either lies in it or gives the pattern a border. */
  lemma OccurrenceInToken(token: string, pattern: string, rest: string, at: nat)
    requires at < |token| && OccursAt(token + pattern + rest, pattern, at)
    ensures OccursAt(token, pattern, at) || !Borderless(pattern)
  {
    var text := token + pattern + rest;
    var n := |pattern|;
    if at + n <= |token| {
      assert token[at..at + n] == text[at..at + n];
    } else {
      var k := at + n - |token|;
      assert pattern[n - k..] == text[at..at + n][n - k..] == text[|token|..|token| + k] == pattern[..k];
    }
  }

  /** A borderless delimiter is first found exactly where it was put behind a token free of it. */
  lemma FindBehindToken(token: string, delimiter: string, rest: string)
    requires delimiter != "" && Borderless(delimiter) && !Contains(token, delimiter)
    ensures Find(token + delimiter + rest, delimiter, 0) == |token|
  {
    var text := token + delimiter + rest;
    forall i | 0 <= i < |token| ensures !OccursAt(text, delimiter, i) {
      if OccursAt(text, delimiter, i) {
        OccurrenceInToken(token, delimiter, rest, i);
      }
    }
    assert text[|token|..|token| + |delimiter|] == delimiter;
    FindIs(text, delimiter, 0, |token|);
  }

  lemma {:induction false} TokensFromJoin(tokens: seq<string>, delimiter: string)
    requires delimiter != "" && Borderless(delimiter) && tokens != []
    requires forall token :: token in tokens ==> !Contains(token, delimiter)
    ensures TokensFrom(Join(tokens, delimiter), delimiter, 0) == tokens
    decreases |tokens|
  {
    hide TokensFrom, Borderless;
    var text := Join(tokens, delimiter);
    assert !Contains(tokens[0], delimiter);
    assert tokens == [tokens[0]] + tokens[1..];
    if |tokens| == 1 {
      TokensFromLast(text, delimiter, 0);
      assert text[0..] == tokens[0];
    } else {
      var rest := Join(tokens[1..], delimiter);
      FindBehindToken(tokens[0], delimiter, rest);
      var next := |tokens[0]| + |delimiter|;
      TokensFromUnfold(text, delimiter, 0, |tokens[0]|);
      TokensFromSuffix(text, delimiter, next, next);
      assert text[next..] == rest && text[0..|tokens[0]|] == tokens[0];
      TokensFromJoin(tokens[1..], delimiter);
    }
  }

  lemma JoinIsEmpty(tokens: seq<string>, delimiter: string)
    requires delimiter != "" && Join(tokens, delimiter) == ""
    ensures tokens == [] || tokens == [""]
  {
  }

  /** Splitting a join gives the tokens back. */
  lemma TokensOfJoin(tokens: seq<string>, delimiter: string)
    requires delimiter != "" && Borderless(delimiter) && Splittable(tokens, delimiter)
    ensures Tokens(Join(tokens, delimiter), delimiter) == tokens
  {
    if Join(tokens, delimiter) == "" {
      JoinIsEmpty(tokens, delimiter);
    } else {
      TokensFromJoin(tokens, delimiter);
    }
  }

  /** The lone empty token joins to the empty text, which has no tokens. */
  lemma LoneEmptyToken(delimiter: string)
    requires delimiter != ""
    ensures Join([""], delimiter) == "" && Tokens(Join([""], delimiter), delimiter) == []
  {
  }

  /**
   For a borderless delimiter, splitting a join gives the tokens back exactly if no token holds the
   delimiter and they are not the lone empty token.
   */
  lemma TokensOfJoinIff(tokens: seq<string>, delimiter: string)
    requires delimiter != "" && Borderless(delimiter)
    ensures Tokens(Join(tokens, delimiter), delimiter) == tokens <==> Splittable(tokens, delimiter)
  {
    hide Borderless, TokensFrom;
    if Splittable(tokens, delimiter) {
      TokensOfJoin(tokens, delimiter);
    }
    LoneEmptyToken(delimiter);
    TokensPartitionText(Join(tokens, delimiter), delimiter);
  }

  /** The delimiters for which splitting undoes every join are exactly the borderless ones. */
  lemma SplitUndoesJoinIff(delimiter: string)
    requires delimiter != ""
    ensures Borderless(delimiter) <==>
            forall tokens :: Splittable(tokens, delimiter) ==> Tokens(Join(tokens, delimiter), delimiter) == tokens
  {
    if Borderless(delimiter) {
      forall tokens | Splittable(tokens, delimiter)
        ensures Tokens(Join(tokens, delimiter), delimiter) == tokens
      {
        TokensOfJoin(tokens, delimiter);
      }
    } else {
      var n := |delimiter|;
      var k :| 0 < k < n && delimiter[..k] == delimiter[n - k..];
      var token := delimiter[..n - k];
      var tokens := [token, ""];
      var text := Join(tokens, delimiter);
      assert tokens[1..] == [""];
      assert Join([""], delimiter) == "";
      assert text == token + delimiter;
      assert text[0..n] == delimiter[..n - k] + delimiter[..k] == delimiter;
      assert OccursAt(text, delimiter, 0);
      assert Tokens(text, delimiter)[0] == "";
      assert !Contains("", delimiter) && !Contains(token, delimiter);
      assert Splittable(tokens, delimiter);
    }
  }

  // ---------------------------------------------------------------- case folding

  function LowerChar(c: char): char {
    if 'A' <= c <= 'Z' then (c as int + 32) as char else c
  }

  function UpperChar(c: char): char {
    if 'a' <= c <= 'z' then (c as int - 32) as char else c
  }

  function Lower(text: string): (r: string) {
    seq(|text|, i requires 0 <= i < |text| => LowerChar(text[i]))
  }

  function Upper(text: string): (r: string) {
    seq(|text|, i requires 0 <= i < |text| => UpperChar(text[i]))
  }

  const CAPITALS := "ABCDEFGHIJKLMNOPQRSTUVWXYZ"
  const SMALLS := "abcdefghijklmnopqrstuvwxyz"

  /** d is c with a letter from one alphabet replaced by that in the same place of the other. */
  ghost predicate FoldedTo(c: char, d: char, from: string, to: string)
    requires |from| == |to|
  {
    && (c !in from ==> d == c)
    && (forall k :: 0 <= k < |from| && c == from[k] ==> d == to[k])
  }

  /** Folding a text replaces its letters one by one, and nothing else. */
  ghost predicate TextFoldedTo(text: string, folded: string, from: string, to: string)
    requires |from| == |to|
  {
    |folded| == |text| && forall k :: 0 <= k < |text| ==> FoldedTo(text[k], folded[k], from, to)
  }

  lemma AlphabetAt(k: nat)
    requires k < 26
    ensures |CAPITALS| == |SMALLS| == 26
    ensures CAPITALS[k] as int == 'A' as int + k && SMALLS[k] as int == 'a' as int + k
  {
  }

  lemma CharsFold(c: char)
    ensures |CAPITALS| == |SMALLS| && FoldedTo(c, LowerChar(c), CAPITALS, SMALLS)
    ensures FoldedTo(c, UpperChar(c), SMALLS, CAPITALS)
  {
    forall k | 0 <= k < 26
      ensures |CAPITALS| == |SMALLS| == 26
      ensures CAPITALS[k] as int == 'A' as int + k && SMALLS[k] as int == 'a' as int + k
    {
      AlphabetAt(k);
    }
    AlphabetAt(0);
    if 'A' <= c <= 'Z' {
      assert CAPITALS[c as int - 'A' as int] == c;
    }
    if 'a' <= c <= 'z' {
      assert SMALLS[c as int - 'a' as int] == c;
    }
  }

  /** What the two foldings of a text are. */
  lemma FoldingsAre(text: string)
    ensures |CAPITALS| == |SMALLS|
    ensures TextFoldedTo(text, Lower(text), CAPITALS, SMALLS) && TextFoldedTo(text, Upper(text), SMALLS, CAPITALS)
  {
    hide LowerChar, UpperChar, FoldedTo;
    CharsFold('A');
    forall k | 0 <= k < |text|
      ensures FoldedTo(text[k], Lower(text)[k], CAPITALS, SMALLS)
      ensures FoldedTo(text[k], Upper(text)[k], SMALLS, CAPITALS)
    {
      CharsFold(text[k]);
    }
  }

  method ToLowerCase(text: array<char>)
    modifies text
    ensures text[..] == Lower(old(text[..]))
    ensures |CAPITALS| == |SMALLS| && TextFoldedTo(old(text[..]), text[..], CAPITALS, SMALLS)
  {
    FoldingsAre(text[..]);
    for i := 0 to text.Length
      invariant forall k :: 0 <= k < i ==> text[k] == LowerChar(old(text[k]))
      invariant forall k :: i <= k < text.Length ==> text[k] == old(text[k])
    {
      text[i] := LowerChar(text[i]);
    }
  }

  method ToUpperCase(text: array<char>)
    modifies text
    ensures text[..] == Upper(old(text[..]))
    ensures |CAPITALS| == |SMALLS| && TextFoldedTo(old(text[..]), text[..], SMALLS, CAPITALS)
  {
    FoldingsAre(text[..]);
    for i := 0 to text.Length
      invariant forall k :: 0 <= k < i ==> text[k] == UpperChar(old(text[k]))
      invariant forall k :: i <= k < text.Length ==> text[k] == old(text[k])
    {
      text[i] := UpperChar(text[i]);
    }
  }

  /** Both foldings identify the same texts, and each absorbs the other. */
  lemma CaseFoldingsAgree(s: string, t: string)
    ensures Lower(s) == Lower(t) <==> Upper(s) == Upper(t)
    ensures Lower(Upper(s)) == Lower(s) && Upper(Lower(s)) == Upper(s)
  {
    if Lower(s) == Lower(t) {
      assert forall i :: 0 <= i < |Lower(s)| ==> LowerChar(s[i]) == Lower(s)[i] == Lower(t)[i] == LowerChar(t[i]);
    }
    if Upper(s) == Upper(t) {
      assert forall i :: 0 <= i < |Upper(s)| ==> UpperChar(s[i]) == Upper(s)[i] == Upper(t)[i] == UpperChar(t[i]);
    }
  }
}
