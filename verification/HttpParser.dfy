/** HTTP request parsing (protocol/http/request/src/http_parser.cpp). */
module HttpParser {
  import opened Wrappers
  import opened Utils
  import opened HttpSyntax
  import Base64
  import Decimal

  datatype HttpMethod = Get | Put | Delete | Unrecognized

  datatype AuthInfo = AuthInfo(username: string, password: string)

  function MethodOf(token: string): Option<HttpMethod> {
    if token == "GET" then Some(Get)
    else if token == "PUT" then Some(Put)
    else if token == "DELETE" then Some(Delete)
    else None
  }

  /** The three methods by their names. */
  lemma MethodsAre(token: string)
    ensures MethodOf("GET") == Some(Get) && MethodOf("PUT") == Some(Put) && MethodOf("DELETE") == Some(Delete)
    ensures MethodOf(token).Some? ==> token in {"GET", "PUT", "DELETE"}
  {
  }

  /** What the parser's fields hold once the constructor is done. */
  datatype Request = Request(
    valid: bool,
    method_: HttpMethod,
    uri: string,
    resourceSize: nat,
    headerFields: map<string, string>
  )

  const NoRequest := Request(false, Unrecognized, "", 0, map[])

  // ---------------------------------------------------------------- header fields

  /** remove_prefix(find_first_not_of(' ')) */
  function SkipSpaces(text: string): (r: string)
    ensures |r| <= |text|
  {
    if text != "" && text[0] == ' ' then SkipSpaces(text[1..]) else text
  }

  /** A line that the header loop can read: it has a ':' with a character other than a space behind it. */
  predicate HeaderDefined(line: string) {
    var tokens := Tokens(line, ":");
    |tokens| >= 2 && SkipSpaces(tokens[1]) != ""
  }

  function FieldName(line: string): string
    requires HeaderDefined(line)
  {
    Lower(Tokens(line, ":")[0])
  }

  /** The value ends at a second ':'. */
  function FieldValue(line: string): string
    requires HeaderDefined(line)
  {
    SkipSpaces(Tokens(line, ":")[1])
  }

  predicate HeadersDefined(lines: seq<string>) {
    forall k :: 0 <= k < |lines| ==> HeaderDefined(lines[k])
  }

  /** The map after the loop over these lines; a later line overwrites an earlier one. */
  function HeaderFields(lines: seq<string>): map<string, string>
    requires HeadersDefined(lines)
  {
    if lines == [] then map[]
    else
      var last := |lines| - 1;
      HeaderFields(lines[..last])[FieldName(lines[last]) := FieldValue(lines[last])]
  }

  // ---------------------------------------------------------------- the whole request

  /** std::size_t from int: a negative number wraps around. */
  function ToSize(n: int): nat
    requires -0x8000_0000 <= n < 0x8000_0000
  {
    if n < 0 then n + 0x1_0000_0000_0000_0000 else n
  }

  /** atoi stops inside the value, because not all of it is white space, and the number fits an int. */
  predicate SizeDefined(fields: map<string, string>) {
    "content-length" in fields ==>
      && (exists k :: 0 <= k < |fields["content-length"]| && !Decimal.IsSpace(fields["content-length"][k]))
      && -0x8000_0000 <= Decimal.Atoi(fields["content-length"]) < 0x8000_0000
  }

  function ResourceSize(fields: map<string, string>): nat
    requires SizeDefined(fields)
  {
    if "content-length" in fields then ToSize(Decimal.Atoi(fields["content-length"])) else 0
  }

  /** The lines the header loop visits: all but the request line and the two empty ones at the end. */
  function HeaderLines(lines: seq<string>): seq<string>
    requires |lines| >= 3
  {
    lines[1..|lines| - 2]
  }

  /**
   The buffers on which the C++ is defined. Nothing past the method is looked at when
   the method is not recognised, because the lookup throws.
   */
  predicate Defined(buffer: string) {
    buffer == "" ||
    var lines := Tokens(buffer, CRLF);
    var tokens := Tokens(lines[0], " ");
    && tokens != []
    && (MethodOf(tokens[0]).Some? ==>
          && |tokens| >= 2 && |lines| >= 3
          && HeadersDefined(HeaderLines(lines))
          && SizeDefined(HeaderFields(HeaderLines(lines))))
  }

  function Parse(buffer: string): (r: Request)
    requires Defined(buffer)
  {
    if buffer == "" then NoRequest
    else
      var lines := Tokens(buffer, CRLF);
      var tokens := Tokens(lines[0], " ");
      match MethodOf(tokens[0])
      case None => NoRequest
      case Some(m) =>
        var fields := HeaderFields(HeaderLines(lines));
        Request(true, m, tokens[1], ResourceSize(fields), fields)
  }

  /** The basic-authentication lookup is defined: two words, the second one non-empty ASCII with a ':' inside. */
  predicate AuthDefined(fields: map<string, string>) {
    "authorization" in fields ==>
      var words := Tokens(fields["authorization"], " ");
      && |words| >= 2 && words[1] != ""
      && (forall c :: c in words[1] ==> c as int < 128)
      && (var decoded := Base64.Decoded(words[1]);
          decoded.Some? ==> |Tokens(decoded.value, ":")| >= 2)
  }

  function AuthInfoOf(fields: map<string, string>): (r: Option<AuthInfo>)
    requires AuthDefined(fields)
  {
    if "authorization" !in fields then None
    else
      match Base64.Decoded(Tokens(fields["authorization"], " ")[1])
      case None => None
      case Some(decoded) =>
        var userAndPass := Tokens(decoded, ":");
        Some(AuthInfo(userAndPass[0], userAndPass[1]))
  }

  class Parser {
    var valid: bool
    var method_: HttpMethod
    var uri: string
    var resourceSize: nat
    var headerFields: map<string, string>

    function View(): Request
      reads this
    {
      Request(valid, method_, uri, resourceSize, headerFields)
    }

    constructor (buffer: string)
      requires Defined(buffer)
      ensures View() == Parse(buffer)
    {
      valid, method_, uri, resourceSize, headerFields := false, Unrecognized, "", 0, map[];
      new;
      if buffer != "" {
        var lines := Split(buffer, CRLF);
        var recognised := ParseRequestLine(lines);
        if recognised {
          ParseHeaderFields(lines);
          if "content-length" in headerFields {
            resourceSize := ToSize(Decimal.Atoi(headerFields["content-length"]));
          }
          valid := true;
        }
      }
    }

    /** False stands for the exception of the method lookup, which leaves the fields alone. */
    method ParseRequestLine(lines: seq<string>) returns (recognised: bool)
      requires lines != [] && Tokens(lines[0], " ") != []
      requires MethodOf(Tokens(lines[0], " ")[0]).Some? ==> |Tokens(lines[0], " ")| >= 2
      modifies this`method_, this`uri
      ensures recognised == MethodOf(Tokens(lines[0], " ")[0]).Some?
      ensures recognised ==> Some(method_) == MethodOf(Tokens(lines[0], " ")[0]) && uri == Tokens(lines[0], " ")[1]
      ensures !recognised ==> method_ == old(method_) && uri == old(uri)
    {
      var tokens := Split(lines[0], " ");
      var found := MethodOf(tokens[0]);
      if found == None {
        return false;
      }
      method_ := found.value;
      uri := tokens[1];
      return true;
    }

    method ParseHeaderFields(lines: seq<string>)
      requires |lines| >= 3 && HeadersDefined(HeaderLines(lines))
      requires headerFields == map[]
      modifies this`headerFields
      ensures headerFields == HeaderFields(HeaderLines(lines))
    {
      ghost var all := HeaderLines(lines);
      for i := 1 to |lines| - 2
        invariant headerFields == HeaderFields(all[..i - 1])
      {
        assert all[..i][..i - 1] == all[..i - 1] && HeaderDefined(all[i - 1]);
        var tokens := Split(lines[i], ":");
        var value := SkipSpaces(tokens[1]);
        var name := new char[|tokens[0]|](k requires 0 <= k < |tokens[0]| => tokens[0][k]);
        assert name[..] == tokens[0];
        ToLowerCase(name);
        headerFields := headerFields[name[..] := value];
      }
      assert all[..|lines| - 3] == all;
    }

    /** operator[] */
    method Get(key: string) returns (value: Option<string>)
      ensures value == if key in headerFields then Some(headerFields[key]) else None
    {
      value := if key in headerFields then Some(headerFields[key]) else None;
    }

    method GetAuthInfo() returns (info: Option<AuthInfo>)
      requires AuthDefined(headerFields)
      ensures info == AuthInfoOf(headerFields)
    {
      var value := Get("authorization");
      if value == None {
        return None;
      }
      var words := Split(value.value, " ");
      var decoded := Base64.DecodeBase64(words[1]);
      if decoded == None {
        return None;
      }
      var userAndPass := Split(decoded.value, ":");
      info := Some(AuthInfo(userAndPass[0], userAndPass[1]));
    }
  }
}
