/** FTP request parsing (protocol/ftp/request/src/ftp_parser.cpp). */
module FtpParser {
  import opened Wrappers
  import opened Utils
  import opened HttpSyntax

  datatype FtpCommand = List | Retr | Stor | Dele | User | Pass | Pasv | Type | Cwd | Quit | Unrecognized

  function CommandOf(name: string): Option<FtpCommand> {
    if name == "LIST" then Some(List)
    else if name == "RETR" then Some(Retr)
    else if name == "STOR" then Some(Stor)
    else if name == "DELE" then Some(Dele)
    else if name == "PASS" then Some(Pass)
    else if name == "USER" then Some(User)
    else if name == "PASV" then Some(Pasv)
    else if name == "TYPE" then Some(Type)
    else if name == "CWD" then Some(Cwd)
    else if name == "QUIT" then Some(Quit)
    else None
  }

  datatype Request = Request(valid: bool, command: FtpCommand, tokens: seq<string>)

  /** The line ends with CRLF, and something stands before it: otherwise there is no first token. */
  predicate Defined(buffer: string) {
    buffer == "" || |buffer| > 2
  }

  /** An unknown command keeps its tokens but stays invalid, because the lookup throws. */
  function Parse(buffer: string): (r: Request)
    requires Defined(buffer)
    ensures r.valid ==> r.command != Unrecognized && r.tokens != []
  {
    if buffer == "" then Request(false, Unrecognized, [])
    else
      var tokens := Tokens(buffer[..|buffer| - 2], " ");
      match CommandOf(Upper(tokens[0]))
      case None => Request(false, Unrecognized, tokens)
      case Some(command) => Request(true, command, tokens)
  }

  class Parser {
    var valid: bool
    var command: FtpCommand
    var tokens: seq<string>

    function View(): Request
      reads this
    {
      Request(valid, command, tokens)
    }

    constructor (buffer: string)
      requires Defined(buffer)
      ensures View() == Parse(buffer)
    {
      valid, command, tokens := false, Unrecognized, [];
      new;
      if buffer != "" {
        tokens := Split(buffer[..|buffer| - 2], " ");
        var first := tokens[0];
        var name := new char[|first|](k requires 0 <= k < |first| => first[k]);
        assert name[..] == first;
        ToUpperCase(name);
        var found := CommandOf(name[..]);
        if found.Some? {
          command := found.value;
          valid := true;
        }
      }
    }
  }

  function CommandName(c: FtpCommand): string
    requires c != Unrecognized
  {
    match c
    case List => "LIST"
    case Retr => "RETR"
    case Stor => "STOR"
    case Dele => "DELE"
    case User => "USER"
    case Pass => "PASS"
    case Pasv => "PASV"
    case Type => "TYPE"
    case Cwd => "CWD"
    case Quit => "QUIT"
  }

  lemma CommandOfIff(name: string, c: FtpCommand)
    requires c != Unrecognized
    ensures CommandOf(name) == Some(c) <==> name == CommandName(c)
  {
  }

  /**
   A line of words separated by single spaces gives those words back, and names a command
   exactly when its first word is that command's name in any mixture of cases.
   */
  lemma ParsePrinted(words: seq<string>, c: FtpCommand)
    requires words != [] && words != [""] && c != Unrecognized
    requires forall k :: 0 <= k < |words| ==> ' ' !in words[k]
    ensures var buffer := Join(words, " ") + CRLF;
            && Defined(buffer)
            && Parse(buffer).tokens == words
            && (Parse(buffer).valid && Parse(buffer).command == c <==> Lower(words[0]) == Lower(CommandName(c)))
  {
    hide CommandOf, CommandName, TokensFrom, Join, Upper, Lower;
    var line := Join(words, " ");
    SingleCharBorderless(' ');
    forall word | word in words ensures !Contains(word, " ") {
      FreeOfChar(word, " ");
    }
    TokensOfJoin(words, " ");
    assert (line + CRLF)[..|line|] == line;
    CommandOfIff(Upper(words[0]), c);
    CaseFoldingsAgree(words[0], CommandName(c));
    NameIsUpper(c);
  }

  lemma NameIsUpper(c: FtpCommand)
    requires c != Unrecognized
    ensures Upper(CommandName(c)) == CommandName(c)
  {
  }

  /** The ten commands by their names. */
  lemma CommandsAre(name: string)
    ensures CommandOf("LIST") == Some(List) && CommandOf("RETR") == Some(Retr) && CommandOf("STOR") == Some(Stor)
    ensures CommandOf("DELE") == Some(Dele) && CommandOf("USER") == Some(User) && CommandOf("PASS") == Some(Pass)
    ensures CommandOf("PASV") == Some(Pasv) && CommandOf("TYPE") == Some(Type) && CommandOf("CWD") == Some(Cwd)
    ensures CommandOf("QUIT") == Some(Quit)
    ensures CommandOf(name).Some? ==>
              name in {"LIST", "RETR", "STOR", "DELE", "USER", "PASS", "PASV", "TYPE", "CWD", "QUIT"}
  {
  }
}
