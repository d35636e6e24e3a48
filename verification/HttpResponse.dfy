/**
 HTTP responses (protocol/http/response/src/http_response.cpp) and the reader that finds their
 ends in a stream by Content-Length (section 6.3 of RFC 9112).
 */
module HttpResponse {
  import opened Wrappers
  import opened Utils
  import opened HttpSyntax
  import Decimal

  /** The statuses the session uses. */
  datatype HttpStatus = Continue | Ok | Created | BadRequest | Unauthorized | NotFound | InternalServerError

  function Code(status: HttpStatus): nat {
    match status
    case Continue => 100
    case Ok => 200
    case Created => 201
    case BadRequest => 400
    case Unauthorized => 401
    case NotFound => 404
    case InternalServerError => 500
  }

  function Reason(status: HttpStatus): string {
    match status
    case Continue => "Continue"
    case Ok => "OK"
    case Created => "Created"
    case BadRequest => "Bad Request"
    case Unauthorized => "Unauthorized"
    case NotFound => "Not Found"
    case InternalServerError => "Internal Server Error"
  }

  datatype Header = Header(name: string, value: string)

  datatype Response = Response(code: nat, reason: string, headers: seq<Header>, resource: string)

  const CONTENT_LENGTH := "Content-Length"

  /** The public constructors the session uses, in their order in the source. */
  function OfStatus(status: HttpStatus): Response {
    Response(Code(status), Reason(status), [Header(CONTENT_LENGTH, "0")], "")
  }

  function OfResource(status: HttpStatus, resource: string): Response {
    Response(Code(status), Reason(status),
             [Header("Content-Type", "application/octet-stream"),
              Header(CONTENT_LENGTH, Decimal.ToString(|resource|))],
             resource)
  }

  function OfHeaders(status: HttpStatus, headers: seq<Header>): Response {
    Response(Code(status), Reason(status), headers, "")
  }

  // ---------------------------------------------------------------- serialisation

  function StatusLine(r: Response): string {
    "HTTP/1.1" + " " + Decimal.ToString(r.code) + " " + r.reason
  }

  function HeaderLine(h: Header): string {
    h.name + ": " + h.value
  }

  function FieldLines(headers: seq<Header>): (lines: seq<string>)
    ensures |lines| == |headers|
    ensures forall k :: 0 <= k < |headers| ==> lines[k] == HeaderLine(headers[k])
  {
    seq(|headers|, k requires 0 <= k < |headers| => HeaderLine(headers[k]))
  }

  function HeadOf(r: Response): (lines: seq<string>)
    ensures |lines| == |r.headers| + 1
  {
    [StatusLine(r)] + FieldLines(r.headers)
  }

  function Serialized(r: Response): string {
    Terminated(HeadOf(r)) + CRLF + r.resource
  }

  lemma {:induction false} TerminatedAppend(lines: seq<string>, line: string)
    ensures Terminated(lines + [line]) == Terminated(lines) + line + CRLF
  {
    if lines == [] {
      assert [line][1..] == [];
    } else {
      TerminatedAppend(lines[1..], line);
      assert (lines + [line])[1..] == lines[1..] + [line];
    }
  }

  /** operator std::string */
  method ToText(r: Response) returns (str: string)
    ensures str == Serialized(r)
  {
    hide Terminated, HeaderLine, StatusLine;
    ghost var head := HeadOf(r);
    TerminatedAppend([], StatusLine(r));
    NoLines();
    assert [] + [StatusLine(r)] == head[..1];
    str := StatusLine(r) + CRLF;
    for i := 0 to |r.headers|
      invariant str == Terminated(head[..i + 1])
    {
      TerminatedAppend(head[..i + 1], HeaderLine(r.headers[i]));
      assert head[..i + 2] == head[..i + 1] + [HeaderLine(r.headers[i])];
      str := str + HeaderLine(r.headers[i]);
      str := str + CRLF;
    }
    assert head[..|r.headers| + 1] == head;
    str := str + CRLF;
    str := str + r.resource;
  }

  lemma NoLines()
    ensures Terminated([]) == ""
  {
  }

  // ---------------------------------------------------------------- reading a stream

  /** A status line: version, code, and everything behind the second space. */
  function ReadStatusLine(line: string): Option<(nat, string)> {
    var first := Find(line, " ", 0);
    if first == NPOS then None
    else
      var second := Find(line, " ", first + 1);
      if second == NPOS || !Decimal.AllDigits(line[first + 1..second]) then None
      else Some((Decimal.Value(line[first + 1..second]), line[second + 1..]))
  }

  function ReadHeaderLine(line: string): Option<Header> {
    var colon := Find(line, ": ", 0);
    if colon == NPOS then None else Some(Header(line[..colon], line[colon + 2..]))
  }

  function ReadHeaderLines(lines: seq<string>): Option<seq<Header>> {
    if lines == [] then Some([])
    else
      var first := ReadHeaderLine(lines[0]);
      var rest := ReadHeaderLines(lines[1..]);
      if first.Some? && rest.Some? then Some([first.value] + rest.value) else None
  }

  function ContentLength(headers: seq<Header>): Option<nat> {
    if headers == [] then None
    else if headers[0].name == CONTENT_LENGTH then
      if Decimal.AllDigits(headers[0].value) then Some(Decimal.Value(headers[0].value)) else None
    else ContentLength(headers[1..])
  }

  /** The head up to the first empty line; its lines must read as a status line and header fields. */
  function ReadHead(head: string): Option<Response> {
    var lines := Tokens(head, CRLF);
    if lines == [] then None
    else
      var status := ReadStatusLine(lines[0]);
      var headers := ReadHeaderLines(lines[1..]);
      if status == None || headers == None then None
      else Some(Response(status.value.0, status.value.1, headers.value, ""))
  }

  /** The first complete response of the stream and the length it takes up. */
  function ReadResponse(stream: string): (r: Option<(Response, nat)>)
    ensures r.Some? ==> 0 < r.value.1 <= |stream|
  {
    var end := Find(stream, HEAD_END, 0);
    if end == NPOS then None
    else
      var head := ReadHead(stream[..end]);
      if head == None || ContentLength(head.value.headers) == None then None
      else
        var body := end + 4;
        var length := ContentLength(head.value.headers).value;
        if body + length > |stream| then None
        else Some((head.value.(resource := stream[body..body + length]), body + length))
  }

  /** All complete responses of the stream, in order; what is left over belongs to an unfinished one. */
  function ReadAll(stream: string): (rs: seq<Response>)
    decreases |stream|
  {
    match ReadResponse(stream)
    case None => []
    case Some((r, length)) => [r] + ReadAll(stream[length..])
  }

  // ---------------------------------------------------------------- round trip

  predicate FieldSafe(h: Header) {
    ':' !in h.name && '\r' !in h.name && '\r' !in h.value
  }

  /** A response whose head keeps the line syntax and whose first Content-Length tells the body's size. */
  predicate SelfDelimiting(r: Response) {
    && '\r' !in r.reason
    && (forall k :: 0 <= k < |r.headers| ==> FieldSafe(r.headers[k]))
    && ContentLength(r.headers) == Some(|r.resource|)
  }

  lemma StatusLineReadBack(r: Response)
    ensures ReadStatusLine(StatusLine(r)) == Some((r.code, r.reason))
  {
    hide Find;
    var line := StatusLine(r);
    var digits := Decimal.ToString(r.code);
    SingleCharBorderless(' ');
    FreeOfChar("HTTP/1.1", " ");
    FreeOfChar(digits, " ");
    var tail := digits + " " + r.reason;
    assert line == "HTTP/1.1" + " " + tail;
    FindBehindToken("HTTP/1.1", " ", tail);
    FindBehindToken(digits, " ", r.reason);
    assert line[9..] == tail;
    FindInSuffix(line, " ", 9);
    assert line[9..9 + |digits|] == digits;
    assert line[9 + |digits| + 1..] == r.reason;
    Decimal.ValueOfToString(r.code);
  }

  lemma HeaderLineReadBack(h: Header)
    requires ':' !in h.name
    ensures ReadHeaderLine(HeaderLine(h)) == Some(h)
  {
    hide Find;
    FreeOfChar(h.name, ": ");
    assert ": "[..1] == ":" && ": "[1..] == " ";
    FindBehindToken(h.name, ": ", h.value);
    var line := HeaderLine(h);
    assert line[..|h.name|] == h.name && line[|h.name| + 2..] == h.value;
  }

  lemma {:induction false} HeaderLinesReadBack(headers: seq<Header>)
    requires forall k :: 0 <= k < |headers| ==> FieldSafe(headers[k])
    ensures ReadHeaderLines(FieldLines(headers)) == Some(headers)
  {
    hide ReadHeaderLine, HeaderLine;
    if headers != [] {
      HeaderLineReadBack(headers[0]);
      HeaderLinesReadBack(headers[1..]);
      assert FieldLines(headers)[1..] == FieldLines(headers[1..]);
      assert headers == [headers[0]] + headers[1..];
    }
  }

  lemma HeadIsHeadLines(r: Response)
    requires SelfDelimiting(r)
    ensures HeadLines(HeadOf(r))
  {
    hide ContentLength;
    var lines := HeadOf(r);
    forall k | 0 <= k < |lines| ensures lines[k] != "" && '\r' !in lines[k] {
      if k > 0 {
        assert lines[k] == HeaderLine(r.headers[k - 1]);
      }
    }
  }

  lemma HeadReadBack(r: Response)
    requires SelfDelimiting(r)
    ensures ReadHead(Join(HeadOf(r), CRLF)) == Some(r.(resource := ""))
  {
    hide ContentLength, StatusLine, HeaderLine, ReadStatusLine, ReadHeaderLines, Join;
    var lines := HeadOf(r);
    HeadIsHeadLines(r);
    CrlfBorderless();
    forall line | line in lines ensures !Contains(line, CRLF) {
      FreeOfChar(line, CRLF);
    }
    assert lines[0] != "";
    TokensOfJoin(lines, CRLF);
    StatusLineReadBack(r);
    HeaderLinesReadBack(r.headers);
    assert lines[1..] == FieldLines(r.headers);
  }

  /** Where the head of a serialised response ends, and what it reads as. */
  lemma SerializedHead(r: Response, rest: string)
    requires SelfDelimiting(r)
    ensures var end := Find(Serialized(r) + rest, HEAD_END, 0);
            && end >= 0 && end + 4 + |r.resource| == |Serialized(r)|
            && ReadHead((Serialized(r) + rest)[..end]) == Some(r.(resource := ""))
            && (Serialized(r) + rest)[end + 4..end + 4 + |r.resource|] == r.resource
  {
    hide Find, HeadOf, Terminated, ContentLength, ReadHead;
    var lines := HeadOf(r);
    var stream := Serialized(r) + rest;
    assert stream == Terminated(lines) + CRLF + (r.resource + rest);
    HeadIsHeadLines(r);
    FindHeadEnd(lines, r.resource + rest);
    TerminatedIsJoin(lines);
    HeadReadBack(r);
    assert stream[..|Terminated(lines)| - 2] == Join(lines, CRLF);
  }

  /** Whatever follows it, a self-delimiting response is read back whole. */
  lemma ReadBack(r: Response, rest: string)
    requires SelfDelimiting(r)
    ensures ReadResponse(Serialized(r) + rest) == Some((r, |Serialized(r)|))
  {
    hide Find, Serialized, ReadHead;
    SerializedHead(r, rest);
  }

  /** No proper prefix of a response is taken for a response. */
  lemma IncompleteIsNotRead(r: Response, part: string)
    requires SelfDelimiting(r) && part <= Serialized(r) && part != Serialized(r)
    ensures ReadResponse(part) == None
  {
    hide Find, Serialized, ReadHead;
    var whole := Serialized(r);
    assert whole + "" == whole;
    SerializedHead(r, "");
    var end := Find(whole, HEAD_END, 0);
    var found := Find(part, HEAD_END, 0);
    if found != NPOS {
      assert part == whole[..|part|];
      OccursInPrefix(whole, HEAD_END, |part|, found);
      FindInPrefix(whole, HEAD_END, |part|);
      assert part[..end] == whole[..end];
    }
  }

  function Stream(rs: seq<Response>): string {
    if rs == [] then "" else Serialized(rs[0]) + Stream(rs[1..])
  }

  predicate AllSelfDelimiting(rs: seq<Response>) {
    forall k :: 0 <= k < |rs| ==> SelfDelimiting(rs[k])
  }

  lemma EmptyStreamHasNone()
    ensures ReadResponse("") == None
  {
  }

  /** A stream of responses is read back as exactly those responses, whatever bytes their bodies hold. */
  lemma {:induction false} StreamReadBack(rs: seq<Response>)
    requires AllSelfDelimiting(rs)
    ensures ReadAll(Stream(rs)) == rs
  {
    hide ReadResponse, Serialized, SelfDelimiting;
    if rs == [] {
      EmptyStreamHasNone();
    } else {
      ReadBack(rs[0], Stream(rs[1..]));
      StreamReadBack(rs[1..]);
      assert Stream(rs)[|Serialized(rs[0])|..] == Stream(rs[1..]);
    }
  }

  /** While a stream is still arriving, what has been read is always a prefix of the responses sent. */
  lemma {:induction false} PartialStreamReadBack(rs: seq<Response>, part: string)
    requires AllSelfDelimiting(rs) && part <= Stream(rs)
    ensures ReadAll(part) <= rs
    decreases |rs|
  {
    hide ReadResponse, Serialized, SelfDelimiting;
    if rs == [] {
      EmptyStreamHasNone();
    } else {
      var first := Serialized(rs[0]);
      if |part| < |first| {
        assert part <= first;
        IncompleteIsNotRead(rs[0], part);
      } else {
        var rest := part[|first|..];
        assert part == first + rest;
        ReadBack(rs[0], rest);
        assert rest <= Stream(rs[1..]);
        PartialStreamReadBack(rs[1..], rest);
      }
    }
  }

  lemma ContentLengthOfSize(size: nat, before: seq<Header>)
    requires forall k :: 0 <= k < |before| ==> before[k].name != CONTENT_LENGTH
    ensures ContentLength(before + [Header(CONTENT_LENGTH, Decimal.ToString(size))]) == Some(size)
    decreases |before|
  {
    if before == [] {
      Decimal.ValueOfToString(size);
    } else {
      ContentLengthOfSize(size, before[1..]);
      var last := [Header(CONTENT_LENGTH, Decimal.ToString(size))];
      assert (before + last)[1..] == before[1..] + last;
    }
  }

  /** The challenge the session sends with 401. */
  function Challenge(): Response {
    OfHeaders(Unauthorized, [Header("WWW-Authenticate", "Basic"), Header(CONTENT_LENGTH, "0")])
  }

  lemma ReasonFreeOfCR(status: HttpStatus)
    ensures '\r' !in Reason(status)
  {
  }

  lemma LengthFieldSafe(size: nat)
    ensures FieldSafe(Header(CONTENT_LENGTH, Decimal.ToString(size)))
  {
    hide Decimal.ToString;
  }

  lemma StatusSelfDelimiting(status: HttpStatus)
    ensures SelfDelimiting(OfStatus(status))
  {
    hide Reason, ContentLength, FieldSafe;
    ReasonFreeOfCR(status);
    LengthFieldSafe(0);
    assert Decimal.ToString(0) == "0";
    ContentLengthOfSize(0, []);
    assert [] + [Header(CONTENT_LENGTH, "0")] == [Header(CONTENT_LENGTH, "0")];
  }

  lemma TypeFieldSafe()
    ensures FieldSafe(Header("Content-Type", "application/octet-stream"))
  {
  }

  lemma ResourceSelfDelimiting(status: HttpStatus, resource: string)
    ensures SelfDelimiting(OfResource(status, resource))
  {
    hide Reason, ContentLength, FieldSafe;
    ReasonFreeOfCR(status);
    TypeFieldSafe();
    LengthFieldSafe(|resource|);
    var first := Header("Content-Type", "application/octet-stream");
    ContentLengthOfSize(|resource|, [first]);
    assert OfResource(status, resource).headers == [first] + [Header(CONTENT_LENGTH, Decimal.ToString(|resource|))];
  }

  lemma ChallengeFieldSafe()
    ensures FieldSafe(Header("WWW-Authenticate", "Basic"))
  {
  }

  lemma ChallengeSelfDelimiting()
    ensures SelfDelimiting(Challenge())
  {
    hide Reason, ContentLength, FieldSafe;
    ReasonFreeOfCR(Unauthorized);
    ChallengeFieldSafe();
    LengthFieldSafe(0);
    assert Decimal.ToString(0) == "0";
    ContentLengthOfSize(0, [Header("WWW-Authenticate", "Basic")]);
    assert Challenge().headers == [Header("WWW-Authenticate", "Basic")] + [Header(CONTENT_LENGTH, "0")];
  }

  // ---------------------------------------------------------------- how the responses look

  function Line(text: string): string {
    text + "\r\n"
  }

  lemma {:induction false} TerminatedTwo(a: string, b: string)
    ensures Terminated([a, b]) == Line(a) + Line(b)
  {
    NoLines();
    TerminatedAppend([], a);
    TerminatedAppend([a], b);
    assert [] + [a] == [a] && [a] + [b] == [a, b];
  }

  /** A response built from a status alone: status line, an empty body announced, the empty line. */
  lemma StatusText(status: HttpStatus)
    ensures Serialized(OfStatus(status)) ==
              Line("HTTP/1.1 " + Decimal.ToString(Code(status)) + " " + Reason(status)) + Line("Content-Length: 0")
              + Line("")
  {
    hide Terminated, Decimal.ToString;
    var r := OfStatus(status);
    TerminatedTwo(StatusLine(r), "Content-Length: 0");
    assert HeaderLine(r.headers[0]) == "Content-Length: 0";
    assert HeadOf(r) == [StatusLine(r), "Content-Length: 0"];
    assert StatusLine(r) == "HTTP/1.1 " + Decimal.ToString(Code(status)) + " " + Reason(status);
  }

  /** The codes of the statuses the session sends, with their reasons (section 15 of RFC 9110). */
  lemma StatusesAre()
    ensures Code(Continue) == 100 && Reason(Continue) == "Continue"
    ensures Code(Ok) == 200 && Reason(Ok) == "OK"
    ensures Code(Created) == 201 && Reason(Created) == "Created"
    ensures Code(BadRequest) == 400 && Reason(BadRequest) == "Bad Request"
    ensures Code(Unauthorized) == 401 && Reason(Unauthorized) == "Unauthorized"
    ensures Code(NotFound) == 404 && Reason(NotFound) == "Not Found"
    ensures Code(InternalServerError) == 500 && Reason(InternalServerError) == "Internal Server Error"
  {
  }

  lemma {:induction false} TerminatedThree(a: string, b: string, c: string)
    ensures Terminated([a, b, c]) == Line(a) + Line(b) + Line(c)
  {
    TerminatedTwo(a, b);
    TerminatedAppend([a, b], c);
    assert [a, b] + [c] == [a, b, c];
  }

  lemma ThreeLineText(r: Response, status: string, first: string, second: string)
    requires |r.headers| == 2 && StatusLine(r) == status
    requires HeaderLine(r.headers[0]) == first && HeaderLine(r.headers[1]) == second
    ensures Serialized(r) == Line(status) + Line(first) + Line(second) + Line("") + r.resource
  {
    hide Terminated, HeaderLine, StatusLine;
    TerminatedThree(status, first, second);
    assert HeadOf(r) == [status, first, second];
  }

  lemma ResourceLines(resource: string)
    ensures var r := OfResource(Ok, resource);
            && |r.headers| == 2 && r.resource == resource && StatusLine(r) == "HTTP/1.1 200 OK"
            && HeaderLine(r.headers[0]) == "Content-Type: application/octet-stream"
            && HeaderLine(r.headers[1]) == "Content-Length: " + Decimal.ToString(|resource|)
  {
    hide Decimal.ToString;
    CodesInText();
    var r := OfResource(Ok, resource);
    assert StatusLine(r) == "HTTP/1.1" + " " + "200" + " " + "OK";
  }

  /** A response that carries a resource announces its type and its length. */
  lemma ResourceText(resource: string)
    ensures Serialized(OfResource(Ok, resource)) ==
              Line("HTTP/1.1 200 OK") + Line("Content-Type: application/octet-stream")
              + Line("Content-Length: " + Decimal.ToString(|resource|)) + Line("") + resource
  {
    hide Serialized, Decimal.ToString, StatusLine, HeaderLine, OfResource, Line;
    ResourceLines(resource);
    ThreeLineText(OfResource(Ok, resource), "HTTP/1.1 200 OK", "Content-Type: application/octet-stream",
                  "Content-Length: " + Decimal.ToString(|resource|));
  }

  lemma ChallengeLines()
    ensures var r := Challenge();
            && |r.headers| == 2 && r.resource == "" && StatusLine(r) == "HTTP/1.1 401 Unauthorized"
            && HeaderLine(r.headers[0]) == "WWW-Authenticate: Basic"
            && HeaderLine(r.headers[1]) == "Content-Length: 0"
  {
    hide Decimal.ToString;
    CodesInText();
    assert StatusLine(Challenge()) == "HTTP/1.1" + " " + "401" + " " + "Unauthorized";
  }

  /** The challenge to authenticate. */
  lemma ChallengeText()
    ensures Serialized(Challenge()) ==
              Line("HTTP/1.1 401 Unauthorized") + Line("WWW-Authenticate: Basic") + Line("Content-Length: 0") + Line("")
  {
    hide Serialized, Decimal.ToString, StatusLine, HeaderLine, Challenge, Line;
    ChallengeLines();
    ThreeLineText(Challenge(), "HTTP/1.1 401 Unauthorized", "WWW-Authenticate: Basic", "Content-Length: 0");
    var text :=
      Line("HTTP/1.1 401 Unauthorized") + Line("WWW-Authenticate: Basic") + Line("Content-Length: 0") + Line("");
    assert text + "" == text;
  }

  lemma CodesInText()
    ensures Decimal.ToString(200) == "200" && Decimal.ToString(401) == "401"
  {
    assert Decimal.ToString(2) == "2" && Decimal.ToString(4) == "4";
    assert Decimal.ToString(20) == "20" && Decimal.ToString(40) == "40";
  }
}
