/** Line structure shared by HTTP requests and responses (section 2 of RFC 9112). */
module HttpSyntax {
  import opened Utils

  const CRLF := "\r\n"
  const HEAD_END := "\r\n\r\n"

  /** Every line followed by CRLF. */
  function Terminated(lines: seq<string>): string {
    if lines == [] then "" else lines[0] + CRLF + Terminated(lines[1..])
  }

  /** Lines that can stand in a head: not empty, and free of CR. */
  predicate HeadLines(lines: seq<string>) {
    lines != [] && forall k :: 0 <= k < |lines| ==> lines[k] != "" && '\r' !in lines[k]
  }

  lemma FreeOfChar(text: string, pattern: string)
    requires pattern != "" && pattern[0] !in text
    ensures !Contains(text, pattern)
  {
    forall at ensures !OccursAt(text, pattern, at) {
      if 0 <= at && at + |pattern| <= |text| {
        assert text[at..at + |pattern|][0] == text[at];
      }
    }
  }

  lemma ContainsChar(text: string, c: char)
    ensures Contains(text, [c]) <==> c in text
  {
    if c in text {
      var k :| 0 <= k < |text| && text[k] == c;
      assert OccursAt(text, [c], k);
    } else {
      FreeOfChar(text, [c]);
    }
  }

  lemma SingleCharBorderless(c: char)
    ensures Borderless([c])
  {
  }

  lemma CrlfBorderless()
    ensures Borderless(CRLF)
  {
    assert CRLF[..1] == "\r" && CRLF[1..] == "\n";
  }

  lemma {:induction false} TerminatedIsJoin(lines: seq<string>)
    requires lines != []
    ensures Terminated(lines) == Join(lines, CRLF) + CRLF
  {
    if |lines| == 1 {
      assert Terminated(lines[1..]) == "";
    } else {
      TerminatedIsJoin(lines[1..]);
    }
  }

  /** The head with its empty line, as a join of lines. */
  lemma {:induction false} HeadIsJoin(lines: seq<string>)
    ensures Terminated(lines) + CRLF == Join(lines + ["", ""], CRLF)
  {
    var all := lines + ["", ""];
    if lines == [] {
      assert all == ["", ""] && all[1..] == [""];
    } else {
      HeadIsJoin(lines[1..]);
      assert all == [lines[0]] + (lines[1..] + ["", ""]);
      JoinCons(lines[0], lines[1..] + ["", ""], CRLF);
    }
  }

  lemma FindBehind(text: string, pattern: string, from: nat)
    requires from <= |text| && Find(text[from..], pattern, 0) != NPOS
    requires AbsentBetween(text, pattern, 0, from)
    ensures Find(text, pattern, 0) == from + Find(text[from..], pattern, 0)
  {
    hide Find;
    FindInSuffix(text, pattern, from);
    var at := Find(text, pattern, from);
    FindIs(text, pattern, 0, at);
  }

  lemma NoHeadEndInLine(line: string, tail: string, end: nat)
    requires '\r' !in line && end <= |line| + 2
    requires end > |line| ==> tail != "" && tail[0] != '\r'
    ensures AbsentBetween(line + CRLF + tail, HEAD_END, 0, end)
  {
    var text := line + CRLF + tail;
    forall at | 0 <= at < end ensures !OccursAt(text, HEAD_END, at) {
      if at + 4 <= |text| {
        assert text[at..at + 4][0] == text[at] && text[at..at + 4][2] == text[at + 2];
        if at < |line| {
          assert text[at] == line[at];
        }
      }
    }
  }

  /** The first CRLF CRLF is the one behind the last line of the head. */
  lemma {:induction false} FindHeadEnd(lines: seq<string>, rest: string)
    requires HeadLines(lines)
    ensures Find(Terminated(lines) + CRLF + rest, HEAD_END, 0) == |Terminated(lines)| - 2 >= 0
    decreases |lines|
  {
    hide Find, AbsentBetween;
    var line := lines[0];
    var tail := Terminated(lines[1..]) + CRLF + rest;
    var text := Terminated(lines) + CRLF + rest;
    assert text == line + CRLF + tail;
    if |lines| == 1 {
      NoHeadEndInLine(line, tail, |line|);
      assert text[|line|..|line| + 4] == HEAD_END;
      FindIs(text, HEAD_END, 0, |line|);
    } else {
      FindHeadEnd(lines[1..], rest);
      assert lines[1..][0] == lines[1];
      assert Terminated(lines[1..])[0] == lines[1][0] != '\r';
      NoHeadEndInLine(line, tail, |line| + 2);
      assert text[|line| + 2..] == tail;
      FindBehind(text, HEAD_END, |line| + 2);
    }
  }
}
