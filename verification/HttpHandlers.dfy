/**
 The HTTP request handlers (server/object_storage/src/http_method_handlers.cpp): what one parsed
 request, and then its body, does to the store and which responses it gets.
 */
module HttpHandlers {
  import opened HttpResponse
  import HttpParser
  import Listing
  import MemoryFs
  import U = UserDatabase

  datatype Outcome =
    | Respond(response: Response)                         // answered, the next line is read
    | Remove(path: string, response: Response)            // likewise, after removing a file
    | ReadBody(path: string, size: nat, interim: bool)    // answered once the body is there
    | Refuse(response: Response)                          // answered, and nothing more is read

  /** With authentication on, the handler uses the credentials without asking whether they were found. */
  predicate RequestDefined(authenticate: bool, r: HttpParser.Request) {
    r.valid ==>
      && r.method_ != HttpParser.Unrecognized
      && (authenticate ==> HttpParser.AuthDefined(r.headerFields) && HttpParser.AuthInfoOf(r.headerFields).Some?)
  }

  predicate Authorized(users: U.Users, authenticate: bool, r: HttpParser.Request)
    requires r.valid && RequestDefined(authenticate, r)
  {
    authenticate ==>
      var info := HttpParser.AuthInfoOf(r.headerFields).value;
      U.Verified(users, U.User(info.username, info.password))
  }

  function HandleGet(files: MemoryFs.Files, listing: seq<string>, uri: string): Response {
    if uri == "/" then OfResource(Ok, Listing.Text(listing))
    else if uri in files then OfResource(Ok, files[uri])
    else OfStatus(NotFound)
  }

  function Handle(users: U.Users, files: MemoryFs.Files, listing: seq<string>, authenticate: bool,
                  r: HttpParser.Request): Outcome
    requires RequestDefined(authenticate, r)
  {
    if !r.valid then Refuse(OfStatus(BadRequest))
    else if !Authorized(users, authenticate, r) then Refuse(Challenge())
    else
      match r.method_
      case Get => Respond(HandleGet(files, listing, r.uri))
      case Put =>
        ReadBody(r.uri, r.resourceSize,
                 "expect" in r.headerFields && r.headerFields["expect"] == "100-continue")
      case Delete =>
        if r.uri in files then Remove(r.uri, OfStatus(Ok)) else Respond(OfStatus(NotFound))
  }

  /** The response to a PUT whose body read has completed. */
  function BodyResponse(files: MemoryFs.Files, path: string, ok: bool): Response {
    if !ok then OfStatus(InternalServerError)
    else if path in files then OfStatus(NotFound)
    else OfStatus(Created)
  }

  /** With these users the request is let in: it is valid and, if that is asked for, its credentials are known. */
  predicate Admits(users: U.Users, authenticate: bool, r: HttpParser.Request)
    requires RequestDefined(authenticate, r)
  {
    r.valid &&
    (authenticate ==>
       var info := HttpParser.AuthInfoOf(r.headerFields).value;
       U.Knows(users, info.username, info.password))
  }

  /** Exactly the requests that are not let in are refused: by 400 if invalid, else by the challenge. */
  lemma RefusedIff(users: U.Users, files: MemoryFs.Files, listing: seq<string>, authenticate: bool,
                   r: HttpParser.Request)
    requires RequestDefined(authenticate, r)
    ensures var o := Handle(users, files, listing, authenticate, r);
            && (o.Refuse? <==> !Admits(users, authenticate, r))
            && (o.Refuse? ==> o.response.code == (if r.valid then 401 else 400))
            && (o.Refuse? ==> o.response == (if r.valid then Challenge() else OfStatus(BadRequest)))
  {
    hide HttpParser.AuthInfoOf, HttpParser.AuthDefined, HandleGet;
  }

  /** A GET that is let in is answered by the listing for "/", else by the file if it is there, else by 404. */
  lemma GetIs(users: U.Users, files: MemoryFs.Files, listing: seq<string>, authenticate: bool, r: HttpParser.Request)
    requires RequestDefined(authenticate, r) && Admits(users, authenticate, r) && r.method_ == HttpParser.Get
    ensures var o := Handle(users, files, listing, authenticate, r);
            && o.Respond? && o.response.code == (if r.uri == "/" || r.uri in files then 200 else 404)
            && (r.uri == "/" ==> o.response.resource == Listing.Text(listing))
            && (r.uri != "/" && r.uri in files ==> o.response.resource == files[r.uri])
  {
    hide HttpParser.AuthInfoOf, HttpParser.AuthDefined, Listing.Text;
  }

  /** A DELETE that is let in removes its file and is answered by 200 exactly if the file is there, else by 404. */
  lemma DeleteIs(users: U.Users, files: MemoryFs.Files, listing: seq<string>, authenticate: bool,
                 r: HttpParser.Request)
    requires RequestDefined(authenticate, r) && Admits(users, authenticate, r) && r.method_ == HttpParser.Delete
    ensures var o := Handle(users, files, listing, authenticate, r);
            if r.uri in files then o == Remove(r.uri, OfStatus(Ok)) else o == Respond(OfStatus(NotFound))
  {
    hide HttpParser.AuthInfoOf, HttpParser.AuthDefined;
  }

  /** A PUT that is let in has its body read, as long as declared, with a 100 before exactly if it expects one. */
  lemma PutIs(users: U.Users, files: MemoryFs.Files, listing: seq<string>, authenticate: bool, r: HttpParser.Request)
    requires RequestDefined(authenticate, r) && Admits(users, authenticate, r) && r.method_ == HttpParser.Put
    ensures Handle(users, files, listing, authenticate, r) == ReadBody(r.uri, r.resourceSize, Expects(r))
  {
    hide HttpParser.AuthInfoOf, HttpParser.AuthDefined;
  }

  /** The client waits to be invited to send the body. */
  predicate Expects(r: HttpParser.Request) {
    "expect" in r.headerFields && r.headerFields["expect"] == "100-continue"
  }

  /**
   After the body: 201 exactly if it came and the path was free, 404 if it was taken, 500 if the
   body did not come.
   */
  lemma BodyAnswerIs(files: MemoryFs.Files, path: string, ok: bool)
    ensures BodyResponse(files, path, ok).code == (if !ok then 500 else if path in files then 404 else 201)
  {
  }

  /** The codes of the responses: 100 is none of a final response's. */
  lemma FinalCodes(users: U.Users, files: MemoryFs.Files, listing: seq<string>, authenticate: bool,
                   r: HttpParser.Request)
    requires RequestDefined(authenticate, r)
    ensures var o := Handle(users, files, listing, authenticate, r);
            && (o.Refuse? ==> o.response.code == 400 || o.response.code == 401)
            && (o.Respond? ==> o.response.code == 200 || o.response.code == 404)
            && (o.Remove? ==> o.response.code == 200)
  {
    hide Authorized, Listing.Text;
  }

  lemma BodyCodes(files: MemoryFs.Files, path: string, ok: bool)
    ensures BodyResponse(files, path, ok).code in {500, 404, 201}
    ensures OfStatus(Continue).code == 100
  {
  }

  /** Whatever is answered can be cut out of the response stream again. */
  lemma ResponsesSelfDelimiting(users: U.Users, files: MemoryFs.Files, listing: seq<string>, authenticate: bool,
                                r: HttpParser.Request)
    requires RequestDefined(authenticate, r)
    ensures var o := Handle(users, files, listing, authenticate, r);
            !o.ReadBody? ==> SelfDelimiting(o.response)
  {
    hide SelfDelimiting, OfStatus, OfResource, Challenge, Listing.Text, Authorized;
    StatusSelfDelimiting(BadRequest);
    StatusSelfDelimiting(Ok);
    StatusSelfDelimiting(NotFound);
    ChallengeSelfDelimiting();
    ResourceSelfDelimiting(Ok, Listing.Text(listing));
    if r.uri in files {
      ResourceSelfDelimiting(Ok, files[r.uri]);
    }
  }

  lemma BodyResponseSelfDelimiting(files: MemoryFs.Files, path: string, ok: bool)
    ensures SelfDelimiting(BodyResponse(files, path, ok))
    ensures SelfDelimiting(OfStatus(Continue))
  {
    hide SelfDelimiting, OfStatus;
    StatusSelfDelimiting(InternalServerError);
    StatusSelfDelimiting(NotFound);
    StatusSelfDelimiting(Created);
    StatusSelfDelimiting(Continue);
  }
}
