/** Printed requests in front of the handlers: whom they let in, and what they ask for. */
module HttpAdmission {
  import opened Wrappers
  import opened HttpRequests
  import opened HttpHandlers
  import Base64
  import HttpParser
  import MemoryFs
  import U = UserDatabase
  import Utils

  /** The parsed form of a printed request. */
  ghost predicate Reads(m: HttpParser.HttpMethod, uri: string, version: string, headers: seq<Header>, size: nat,
                        r: HttpParser.Request) {
    && m != HttpParser.Unrecognized && PrintableLine(uri, version) && Printable(headers)
    && DeclaredSize(headers, size) && size < 0x8000_0000
    && var buffer := Print(RequestLine(m, uri, version), headers);
       HttpParser.Defined(buffer) && r == HttpParser.Parse(buffer)
  }

  lemma ReadsRequest(m: HttpParser.HttpMethod, uri: string, version: string, headers: seq<Header>, size: nat,
                     r: HttpParser.Request)
    requires Reads(m, uri, version, headers, size, r)
    ensures r.valid && r.method_ == m && r.uri == uri && r.resourceSize == size
    ensures HoldsLastValues(r.headerFields, headers)
  {
    hide HttpParser.Defined, HttpParser.Parse, Print, Printable, DeclaredSize, HoldsLastValues;
    ParsePrinted(m, uri, version, headers, size);
  }

  /** Where nobody is asked for credentials, every printed request is let in. */
  lemma LetInWithoutAuthentication(m: HttpParser.HttpMethod, uri: string, version: string, headers: seq<Header>,
                                   size: nat, r: HttpParser.Request, users: U.Users, files: MemoryFs.Files,
                                   listing: seq<string>)
    requires Reads(m, uri, version, headers, size, r)
    ensures RequestDefined(false, r) && !Handle(users, files, listing, false, r).Refuse?
  {
    hide Reads, Handle;
    ReadsRequest(m, uri, version, headers, size, r);
    ReadsMethod(m, uri, version, headers, size, r);
    RefusedIff(users, files, listing, false, r);
  }

  lemma ReadsMethod(m: HttpParser.HttpMethod, uri: string, version: string, headers: seq<Header>, size: nat,
                    r: HttpParser.Request)
    requires Reads(m, uri, version, headers, size, r)
    ensures m != HttpParser.Unrecognized
  {
  }

  /**
   A printed request with Basic credentials, neither part of which holds a ':', is let in exactly
   if the name is "anonymous", or is in the table with that password.
   */
  lemma CredentialsDecide(m: HttpParser.HttpMethod, uri: string, version: string, headers: seq<Header>, size: nat,
                          r: HttpParser.Request, user: string, pass: string,
                          users: U.Users, files: MemoryFs.Files, listing: seq<string>)
    requires Reads(m, uri, version, headers, size, r)
    requires Base64.IsByteString(user + ":" + pass) && ':' !in user && ':' !in pass
    requires LastValue(headers, "Authorization") == Some(BasicValue(user, pass))
    ensures RequestDefined(true, r)
    ensures var o := Handle(users, files, listing, true, r);
            && (!o.Refuse? <==> user == "anonymous" || (user in users && users[user] == pass))
            && (o.Refuse? ==> o.response.code == 401)
  {
    hide HttpParser.Defined, HttpParser.Parse, HttpParser.AuthDefined, HttpParser.AuthInfoOf, Print, Printable,
      DeclaredSize, Handle, BasicValue, Base64.IsByteString;
    ReadsRequest(m, uri, version, headers, size, r);
    BasicAuthIff(m, uri, version, headers, size, user, pass);
    RefusedIff(users, files, listing, true, r);
  }

  /** A printed request asks to be invited to send its body exactly if its Expect header says so. */
  lemma ExpectsIff(m: HttpParser.HttpMethod, uri: string, version: string, headers: seq<Header>, size: nat,
                   r: HttpParser.Request)
    requires Reads(m, uri, version, headers, size, r)
    ensures Expects(r) <==>
              LastValue(headers, "Expect").Some? && Kept(LastValue(headers, "Expect").value) == "100-continue"
  {
    hide Reads, Kept, LastValue;
    ReadsRequest(m, uri, version, headers, size, r);
    ExpectIsLower();
    LastValueIgnoresCase(headers, "Expect", "expect");
  }

  lemma ExpectIsLower()
    ensures Utils.Lower("Expect") == Utils.Lower("expect") && IsLower("expect")
  {
    assert Utils.Lower("Expect") == "expect";
    assert Utils.Lower("expect") == "expect";
  }
}
