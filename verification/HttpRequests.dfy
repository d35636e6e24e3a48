/**
 Printed HTTP/1.1 requests (sections 3 and 5 of RFC 9112) read back by the parser, the request
 head cut out of the control stream, and basic authentication (section 2 of RFC 7617).
 */
module HttpRequests {
  import opened Wrappers
  import opened Utils
  import opened HttpParser
  import opened HttpSyntax
  import Base64
  import Decimal

  /** A header field with the number of spaces put behind its ':'. */
  datatype Header = Header(name: string, pad: nat, value: string)

  function Spaces(n: nat): string {
    seq(n, _ => ' ')
  }

  function HeaderLine(h: Header): string {
    h.name + ":" + Spaces(h.pad) + h.value
  }

  function MethodName(m: HttpMethod): string
    requires m != Unrecognized
  {
    match m
    case Get => "GET"
    case Put => "PUT"
    case Delete => "DELETE"
  }

  function RequestLine(m: HttpMethod, uri: string, version: string): string
    requires m != Unrecognized
  {
    MethodName(m) + " " + uri + " " + version
  }

  function LinesOf(headers: seq<Header>): (lines: seq<string>)
    ensures |lines| == |headers|
  {
    seq(|headers|, k requires 0 <= k < |headers| => HeaderLine(headers[k]))
  }

  /** The request line, the header lines and the empty line. */
  function Print(requestLine: string, headers: seq<Header>): string {
    requestLine + CRLF + Terminated(LinesOf(headers)) + CRLF
  }

  predicate PrintableLine(uri: string, version: string) {
    && ' ' !in uri && ' ' !in version
    && '\r' !in uri && '\r' !in version
  }

  /** Name and value stay in one line. */
  predicate OneLine(h: Header) {
    '\r' !in h.name && '\r' !in h.value
  }

  /** A header the parser is defined on: something other than a space or ':' comes first in the value. */
  predicate PrintableHeader(h: Header) {
    && OneLine(h) && ':' !in h.name
    && h.value != "" && h.value[0] != ' ' && h.value[0] != ':'
  }

  predicate Printable(headers: seq<Header>) {
    forall k :: 0 <= k < |headers| ==> PrintableHeader(headers[k])
  }

  ghost predicate OneLineEach(headers: seq<Header>) {
    forall k :: 0 <= k < |headers| ==> OneLine(headers[k])
  }

  /** The text before its first ':'. */
  function Kept(text: string): (r: string)
    ensures r <= text && ':' !in r
    ensures |r| < |text| ==> text[|r|] == ':'
  {
    if text == "" || text[0] == ':' then "" else [text[0]] + Kept(text[1..])
  }

  lemma KeptIff(text: string)
    ensures Kept(text) == text <==> ':' !in text
  {
  }

  // ---------------------------------------------------------------- splitting what was printed

  /** Splitting at ':' puts the text before the first ':' first, and then splits the rest. */
  lemma SplitAtFirst(head: string, rest: string)
    requires ':' !in head
    ensures Tokens(head + ":" + rest, ":") == [head] + TokensFrom(rest, ":", 0)
  {
    hide TokensFrom, Find, OccursAt, AbsentBetween, Contains, Borderless;
    var text := head + ":" + rest;
    SingleCharBorderless(':');
    FreeOfChar(head, ":");
    FindBehindToken(head, ":", rest);
    TokensFromUnfold(text, ":", 0, |head|);
    TokensFromSuffix(text, ":", |head| + 1, |head| + 1);
    assert text[|head| + 1..] == rest && text[0..|head|] == head;
  }

  lemma FirstTokenIsKept(text: string)
    ensures TokensFrom(text, ":", 0) != [] && TokensFrom(text, ":", 0)[0] == Kept(text)
  {
    hide TokensFrom, Find, Contains;
    var kept := Kept(text);
    if kept == text {
      FreeOfChar(text, ":");
      TokensFromLast(text, ":", 0);
      assert text[0..] == text;
    } else {
      assert text == kept + ":" + text[|kept| + 1..];
      SplitAtFirst(kept, text[|kept| + 1..]);
    }
  }

  lemma {:induction false} SkipPadding(pad: nat, value: string)
    requires value != "" && value[0] != ' '
    ensures SkipSpaces(Spaces(pad) + value) == value
  {
    if pad == 0 {
      assert Spaces(0) + value == value;
    } else {
      SkipPadding(pad - 1, value);
      assert (Spaces(pad) + value)[1..] == Spaces(pad - 1) + value;
    }
  }

  lemma {:induction false} KeptIs(text: string, r: string)
    requires r <= text && ':' !in r && (|r| < |text| ==> text[|r|] == ':')
    ensures Kept(text) == r
  {
    if r != "" {
      assert text[0] == r[0] && r[0] in r;
      assert forall c :: c in r[1..] ==> c in r;
      KeptIs(text[1..], r[1..]);
      assert r == [r[0]] + r[1..];
    }
  }

  lemma KeptBehindPadding(pad: nat, value: string)
    ensures Kept(Spaces(pad) + value) == Spaces(pad) + Kept(value)
  {
    hide Kept;
    var kept := Kept(value);
    assert value == kept + value[|kept|..];
    assert Spaces(pad) + value == (Spaces(pad) + kept) + value[|kept|..];
    KeptIs(Spaces(pad) + value, Spaces(pad) + kept);
  }

  /**
   One printed header line is read back as its lower-cased name and its value up to the first ':',
   whatever the padding; that is the value itself exactly if it holds no ':'.
   */
  lemma ReadHeaderLine(h: Header)
    requires PrintableHeader(h)
    ensures HeaderDefined(HeaderLine(h))
    ensures FieldName(HeaderLine(h)) == Lower(h.name) && FieldValue(HeaderLine(h)) == Kept(h.value)
    ensures FieldValue(HeaderLine(h)) == h.value <==> ':' !in h.value
  {
    hide Tokens, TokensFrom;
    var padded := Spaces(h.pad) + h.value;
    assert HeaderLine(h) == h.name + ":" + padded;
    SplitAtFirst(h.name, padded);
    FirstTokenIsKept(padded);
    KeptBehindPadding(h.pad, h.value);
    SkipPadding(h.pad, Kept(h.value));
    KeptIff(h.value);
  }

  /** A port in a Host field is lost. */
  lemma HostIsCut()
    ensures var h := Header("Host", 1, "localhost:8080");
            PrintableHeader(h) && HeaderDefined(HeaderLine(h)) && FieldValue(HeaderLine(h)) == "localhost"
  {
    hide HeaderDefined, FieldValue, HeaderLine, Kept;
    var value := "localhost:8080";
    ReadHeaderLine(Header("Host", 1, value));
    assert value[..9] == "localhost";
    KeptIs(value, "localhost");
  }

  lemma ReadRequestLine(m: HttpMethod, uri: string, version: string)
    requires m != Unrecognized && PrintableLine(uri, version)
    ensures Tokens(RequestLine(m, uri, version), " ") == [MethodName(m), uri, version]
  {
    var words := [MethodName(m), uri, version];
    SingleCharBorderless(' ');
    FreeOfChar(MethodName(m), " ");
    FreeOfChar(uri, " ");
    FreeOfChar(version, " ");
    assert words[1..] == [uri, version] && words[1..][1..] == [version];
    assert Join([version], " ") == version && Join([uri, version], " ") == uri + " " + version;
    assert Join(words, " ") == MethodName(m) + " " + (uri + " " + version);
    assert Join(words, " ") == RequestLine(m, uri, version);
    TokensOfJoin(words, " ");
  }

  lemma HeaderLineFreeOfCR(h: Header)
    requires OneLine(h)
    ensures '\r' !in HeaderLine(h) && HeaderLine(h) != ""
  {
  }

  /** The lines of a printed request are the request line, the header lines and two empty lines. */
  lemma PrintedLines(requestLine: string, headers: seq<Header>)
    requires '\r' !in requestLine && OneLineEach(headers)
    ensures Tokens(Print(requestLine, headers), CRLF) == [requestLine] + LinesOf(headers) + ["", ""]
  {
    hide HeaderLine, OneLine, TokensFrom, Join, Terminated;
    var tail := LinesOf(headers) + ["", ""];
    var lines := [requestLine] + tail;
    HeadIsJoin(LinesOf(headers));
    JoinCons(requestLine, tail, CRLF);
    assert Print(requestLine, headers) == requestLine + CRLF + (Terminated(LinesOf(headers)) + CRLF);
    CrlfBorderless();
    forall line | line in lines ensures !Contains(line, CRLF) {
      if line in LinesOf(headers) {
        var k :| 0 <= k < |headers| && line == HeaderLine(headers[k]);
        HeaderLineFreeOfCR(headers[k]);
      }
      FreeOfChar(line, CRLF);
    }
    TokensOfJoin(lines, CRLF);
    assert lines == [requestLine] + LinesOf(headers) + ["", ""];
  }

  // ---------------------------------------------------------------- what the fields mean

  /** The value of the last header with this name, compared without regard to case. */
  function LastValue(headers: seq<Header>, name: string): Option<string> {
    if headers == [] then None
    else
      var last := headers[|headers| - 1];
      if Lower(last.name) == Lower(name) then Some(last.value)
      else LastValue(headers[..|headers| - 1], name)
  }

  predicate IsLower(name: string) {
    Lower(name) == name
  }

  /** Each name that occurs has the last value given for it, up to the first ':' in it, and no other name is there. */
  ghost predicate HoldsLastValues(fields: map<string, string>, headers: seq<Header>) {
    forall name :: IsLower(name) ==>
      match LastValue(headers, name)
      case None => name !in fields
      case Some(value) => name in fields && fields[name] == Kept(value)
  }

  lemma {:induction false} FieldsHoldLastValues(headers: seq<Header>)
    requires Printable(headers)
    ensures HeadersDefined(LinesOf(headers))
    ensures HoldsLastValues(HeaderFields(LinesOf(headers)), headers)
  {
    hide HeaderLine, HeaderDefined, FieldName, FieldValue;
    forall k | 0 <= k < |headers| ensures HeaderDefined(LinesOf(headers)[k]) {
      ReadHeaderLine(headers[k]);
    }
    if headers != [] {
      var n := |headers| - 1;
      FieldsHoldLastValues(headers[..n]);
      assert LinesOf(headers)[..n] == LinesOf(headers[..n]);
      ReadHeaderLine(headers[n]);
    }
  }

  ghost predicate DeclaredSize(headers: seq<Header>, size: nat) {
    match LastValue(headers, "content-length")
    case None => size == 0
    case Some(value) => Kept(value) == Decimal.ToString(size)
  }

  /**
   Parsing a printed request recovers its method, its URI, the last value of every header name
   without regard to case, up to the first ':' in it, and the declared size.
   */
  lemma ParsePrinted(m: HttpMethod, uri: string, version: string, headers: seq<Header>, size: nat)
    requires m != Unrecognized && PrintableLine(uri, version) && Printable(headers)
    requires DeclaredSize(headers, size) && size < 0x8000_0000
    ensures HeadersDefined(LinesOf(headers))
    ensures var buffer := Print(RequestLine(m, uri, version), headers);
            && Defined(buffer)
            && Parse(buffer) == Request(true, m, uri, size, HeaderFields(LinesOf(headers)))
            && HoldsLastValues(Parse(buffer).headerFields, headers)
  {
    hide HeaderLine, Terminated, LastValue, FieldName, FieldValue, HeaderDefined, HeaderFields, TokensFrom, Find,
      Decimal.Atoi;
    var requestLine := RequestLine(m, uri, version);
    var buffer := Print(requestLine, headers);
    PrintableIsOneLine(headers);
    PrintedLines(requestLine, headers);
    ReadRequestLine(m, uri, version);
    FieldsHoldLastValues(headers);
    var lines := Tokens(buffer, CRLF);
    assert HeaderLines(lines) == LinesOf(headers);
    assert IsLower("content-length");
    Decimal.AtoiOfToString(size, "");
    assert Decimal.ToString(size) + "" == Decimal.ToString(size);
  }

  lemma PrintableIsOneLine(headers: seq<Header>)
    requires Printable(headers)
    ensures OneLineEach(headers)
  {
  }

  /** A header's value survives printing and parsing exactly if its last occurrence holds no ':'. */
  lemma ValueSurvivesIff(m: HttpMethod, uri: string, version: string, headers: seq<Header>, size: nat,
                         name: string, value: string)
    requires m != Unrecognized && PrintableLine(uri, version) && Printable(headers)
    requires DeclaredSize(headers, size) && size < 0x8000_0000
    requires LastValue(headers, name) == Some(value)
    ensures var buffer := Print(RequestLine(m, uri, version), headers);
            && Defined(buffer)
            && var fields := Parse(buffer).headerFields;
               && Lower(name) in fields
               && (fields[Lower(name)] == value <==> ':' !in value)
  {
    hide Defined, Parse, HeaderFields, Print, HeaderLine, Printable, DeclaredSize;
    ParsePrinted(m, uri, version, headers, size);
    assert IsLower(Lower(name));
    LastValueIgnoresCase(headers, name, Lower(name));
    KeptIff(value);
  }

  // ---------------------------------------------------------------- cutting the head out of the stream

  /**
   What `receiveMessage` and `handleHttp` take off the control stream: the first line, then
   everything up to an empty line found *behind* that line.
   */
  function Head(stream: string): Option<string> {
    var line := Find(stream, CRLF, 0);
    if line == NPOS then None
    else
      var end := Find(stream, HEAD_END, line + 2);
      if end == NPOS then None else Some(stream[..end + 4])
  }

  lemma FirstLineEnd(requestLine: string, rest: string)
    requires '\r' !in requestLine
    ensures Find(requestLine + CRLF + rest, CRLF, 0) == |requestLine|
  {
    CrlfBorderless();
    FreeOfChar(requestLine, CRLF);
    FindBehindToken(requestLine, CRLF, rest);
  }

  /** A request is cut out of the stream whole, whatever follows it, exactly when it has a header line. */
  lemma HeadIsRequestIff(requestLine: string, headers: seq<Header>, rest: string)
    requires '\r' !in requestLine && OneLineEach(headers)
    ensures Head(Print(requestLine, headers) + rest) == Some(Print(requestLine, headers)) <==> headers != []
  {
    hide Find, OneLine, HeaderLine, Terminated;
    var printed := Print(requestLine, headers);
    var lines := LinesOf(headers);
    var stream := printed + rest;
    var block := Terminated(lines) + CRLF + rest;
    assert stream == requestLine + CRLF + block;
    FirstLineEnd(requestLine, block);
    var start := |requestLine| + 2;
    assert stream[start..] == block;
    FindInSuffix(stream, HEAD_END, start);
    if headers != [] {
      forall k | 0 <= k < |lines| ensures lines[k] != "" && '\r' !in lines[k] {
        HeaderLineFreeOfCR(headers[k]);
      }
      FindHeadEnd(lines, rest);
      assert start + |Terminated(lines)| + 2 == |printed|;
      assert stream[..|printed|] == printed;
    } else {
      NoLines();
      assert |printed| == start + 2;
    }
  }

  lemma NoLines()
    ensures Terminated(LinesOf([])) == ""
  {
  }

  // ---------------------------------------------------------------- basic authentication

  function BasicValue(user: string, pass: string): string
    requires Base64.IsByteString(user + ":" + pass)
  {
    "Basic " + Base64.Encoded(user + ":" + pass)
  }

  lemma EncodedLetters(bytes: string)
    requires Base64.IsByteString(bytes)
    ensures forall c :: c in Base64.Encoded(bytes) ==> c as int < 128 && c != ' ' && c != ':' && c != '\r'
  {
    hide Base64.EncodedChar;
    var text := Base64.Encoded(bytes);
    forall k | 0 <= k < |text|
      ensures text[k] as int < 128 && text[k] != ' ' && text[k] != ':' && text[k] != '\r'
    {
      EncodedLetter(bytes, k / 4, k % 4);
    }
  }

  lemma EncodedLetter(bytes: string, q: nat, r: nat)
    requires Base64.IsByteString(bytes)
    ensures var c := Base64.EncodedChar(bytes, q, r); c as int < 128 && c != ' ' && c != ':' && c != '\r'
  {
  }

  lemma BasicWords(user: string, pass: string)
    requires Base64.IsByteString(user + ":" + pass)
    ensures Tokens(BasicValue(user, pass), " ") == ["Basic", Base64.Encoded(user + ":" + pass)]
  {
    hide Base64.Encoded, TokensFrom;
    var words := ["Basic", Base64.Encoded(user + ":" + pass)];
    EncodedLetters(user + ":" + pass);
    SingleCharBorderless(' ');
    FreeOfChar(words[0], " ");
    FreeOfChar(words[1], " ");
    assert words[1..] == [words[1]];
    assert Join(words, " ") == BasicValue(user, pass);
    TokensOfJoin(words, " ");
  }

  /** What the decoded pair is split into: the first two tokens are the pair exactly if neither part holds a ':'. */
  lemma PairTokens(user: string, pass: string)
    ensures var tokens := Tokens(user + ":" + pass, ":");
            |tokens| >= 2 && (tokens[0] == user && tokens[1] == pass <==> ':' !in user && ':' !in pass)
  {
    hide TokensFrom, Tokens;
    var text := user + ":" + pass;
    var kept := Kept(text);
    assert text[|user|] == ':';
    assert text == kept + ":" + text[|kept| + 1..];
    SplitAtFirst(kept, text[|kept| + 1..]);
    FirstTokenIsKept(text[|kept| + 1..]);
    if ':' !in user {
      SplitAtFirst(user, pass);
      FirstTokenIsKept(pass);
      KeptIff(pass);
    }
  }

  /**
   A printed request whose last Authorization header carries a user name and a password gives
   exactly that pair back if and only if there is no ':' in either of them.
   */
  lemma BasicAuthIff(m: HttpMethod, uri: string, version: string, headers: seq<Header>, size: nat,
                     user: string, pass: string)
    requires m != Unrecognized && PrintableLine(uri, version) && Printable(headers)
    requires DeclaredSize(headers, size) && size < 0x8000_0000
    requires Base64.IsByteString(user + ":" + pass)
    requires LastValue(headers, "Authorization") == Some(BasicValue(user, pass))
    ensures var buffer := Print(RequestLine(m, uri, version), headers);
            && Defined(buffer)
            && var fields := Parse(buffer).headerFields;
            && AuthDefined(fields)
            && (AuthInfoOf(fields) == Some(AuthInfo(user, pass)) <==> ':' !in user && ':' !in pass)
  {
    hide Defined, Parse, HeaderFields, TokensFrom, Tokens, Base64.Encoded, Base64.Decoded, HeaderLine, Printable,
      DeclaredSize, Base64.IsByteString, Print, Find, Kept;
    ParsePrinted(m, uri, version, headers, size);
    var fields := Parse(Print(RequestLine(m, uri, version), headers)).headerFields;
    EncodedLetters(user + ":" + pass);
    KeptIff(BasicValue(user, pass));
    AuthorizationField(fields, headers, BasicValue(user, pass));
    BasicWords(user, pass);
    Base64.DecodeOfEncode(user + ":" + pass);
    Base64.EncodingLength(user + ":" + pass);
    PairTokens(user, pass);
  }

  lemma {:induction false} LastValueIgnoresCase(headers: seq<Header>, s: string, t: string)
    requires Lower(s) == Lower(t)
    ensures LastValue(headers, s) == LastValue(headers, t)
  {
    if headers != [] {
      LastValueIgnoresCase(headers[..|headers| - 1], s, t);
    }
  }

  lemma AuthorizationField(fields: map<string, string>, headers: seq<Header>, value: string)
    requires HoldsLastValues(fields, headers) && LastValue(headers, "Authorization") == Some(value)
    ensures "authorization" in fields && fields["authorization"] == Kept(value)
  {
    assert Lower("Authorization") == Lower("authorization") == "authorization";
    LastValueIgnoresCase(headers, "Authorization", "authorization");
    assert IsLower("authorization");
  }
}
