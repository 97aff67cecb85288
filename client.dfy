/**
 * The module-level session of the console client: the globals `ACCESS_TOKEN` and
 * `AUTH_SCOPE` (and the token file's last record) as fields, and the calls that
 * read or update them.
 */
module Client {
  import opened Wrappers
  import opened Strings
  import opened ParamDict
  import opened GraphUrl
  import opened Multipart
  import opened Credentials

  /** The request handed to `urllib2`: verb, URL, body and the header the handler added. */
  datatype HttpRequest = HttpRequest(verb: string, url: string, body: Option<string>, contentType: Option<string>)

  /** `urlopen(url)`: a bodiless GET. */
  function GetRequest(url: string): HttpRequest {
    HttpRequest("GET", url, None, None)
  }

  /**
   * `post(path, params)`: the token-bearing Graph URL, opened with `params` as data and
   * passed through `http_request`; `urllib2` sends a GET when there is no data.
   */
  function PostRequest(token: Option<string>, path: string, data: Data, enc: Encoder, chosen: string, guess: Guesser): (r: HttpRequest)
    ensures r.verb == "POST" <==> !data.NoData?
    ensures r.verb == "GET" <==> data.NoData?
    ensures r.body.None? <==> data.NoData?
    ensures r.contentType.Some? <==> data.Fields? && Uploads(data.items) != []
    ensures IsSuffix(path + "?" + enc(FinalArgs(token, None)), r.url)
  {
    var p := Prepare(data, enc, chosen, guess);
    HttpRequest(if data.NoData? then "GET" else "POST", Url(token, path, None, true, enc), p.body, p.contentType)
  }

  /** The items `delete` posts: the caller's (or `{}`), with `method` set to `delete`. */
  function DeleteItems(given: Items<Value>): (r: Items<Value>)
    ensures Lookup(r, "method") == Some(Text("delete"))
    ensures Keys(r) == Keys(given) + {"method"}
    ensures forall k :: k != "method" ==> Lookup(r, k) == Lookup(given, k)
  {
    Updated(given, "method", Text("delete"))
  }

  class Session {
    /** `ACCESS_TOKEN` */
    var accessToken: Option<string>
    /** `AUTH_SCOPE` */
    var authScope: seq<string>
    /** The record last written to the token file by the login handler, if any. */
    var saved: Option<Record>

    /** The module's initial globals. */
    constructor (saved: Option<Record>)
      ensures accessToken == None && authScope == [] && this.saved == saved
    {
      accessToken := None;
      authScope := [];
      this.saved := saved;
    }

    /**
     * `_get_url(path, args, graph)`. A caller's non-empty dict receives the token in
     * place; a null or empty one is replaced by a fresh dict and left as it was.
     */
    method GetUrl(path: string, args: Dict?<string>, graph: bool, enc: Encoder) returns (url: string)
      requires args != null ==> args.Valid()
      modifies args
      ensures args != null ==> args.Valid()
      ensures url == Url(accessToken, path, if args == null then None else Some(old(args.items)), graph, enc)
      ensures args != null && old(args.items) != [] ==> args.items == WithToken(accessToken, old(args.items))
      ensures args != null && old(args.items) == [] ==> args.items == []
    {
      var d: Dict<string>;
      if args == null || args.items == [] {
        d := new Dict();
      } else {
        d := args;
      }
      if Truthy(accessToken) {
        d.Assign("access_token", accessToken.value);
      }
      assert d.items == FinalArgs(accessToken, if args == null then None else Some(old(args.items)));
      var subdomain: string;
      if graph {
        subdomain := "graph";
        if Contains(path, "/videos") {
          subdomain := "graph-video";
        }
      } else {
        subdomain := if graph then "graph" else "api";
      }
      assert subdomain == Subdomain(path, graph);
      var endpoint: string;
      if "access_token" in Keys(d.items) || "client_secret" in Keys(d.items) {
        endpoint := Endpoint("https", subdomain);
      } else {
        endpoint := Endpoint("http", subdomain);
      }
      assert endpoint == Endpoint(Scheme(d.items), subdomain);
      url := endpoint + (path + "?" + enc(d.items));
    }

    /** `_RequestHandler.do_GET` for one redirect, returning the page written back. */
    method HandleRequest(req: Incoming) returns (page: string)
      modifies this
      ensures var s := Capture(req.query, old(authScope), req.now);
              && accessToken == s.token
              && page == Page(s.reply)
              && saved == SavedAfter([req], old(authScope), old(saved))
      ensures authScope == old(authScope)
    {
      accessToken := FirstValue(req.query, "access_token");
      if Truthy(accessToken) {
        var expiration := FirstValue(req.query, "expires_in");
        var expiresAt: Option<Expiry> := None;
        if Truthy(expiration) {
          if expiration.value == "0" {
            expiresAt := Some(Never);
          } else {
            var n := ParseInt(expiration.value);
            if n.None? {
              // `int()` raises; the server logs it and the page stays empty
              page := "";
              return;
            }
            expiresAt := Some(At(req.now + n.value));
          }
        }
        saved := Some(Record(authScope, accessToken.value, expiresAt));
        page := SuccessPage;
      } else {
        page := ScriptPage;
      }
    }

    /**
     * `authenticate()` with the token file's content `file`, the clock `now` and the
     * redirects that reach the listener, in order. Returns the exception raised, if
     * any, and how many redirects were handled; running out of redirects while still
     * waiting stands for the call never returning.
     */
    method Authenticate(file: TokenFile, now: int, requests: seq<Incoming>) returns (fault: Option<Fault>, handled: nat)
      modifies this
      ensures authScope == old(authScope)
      ensures handled <= |requests|
      ensures match CacheLookup(file, old(authScope), now)
              case Err(e) =>
                fault == Some(e) && handled == 0 && accessToken == old(accessToken) && saved == old(saved)
              case Ok(Some(t)) =>
                fault == None && handled == 0 && accessToken == Some(t) && saved == old(saved)
              case Ok(None) =>
                && fault == None
                && (old(accessToken).Some? ==> handled == 0 && accessToken == old(accessToken) && saved == old(saved))
                && (old(accessToken).None? ==>
                      && handled == Served(requests)
                      && accessToken == (if handled == 0 then None else TokenOf(requests[handled - 1]))
                      && saved == SavedAfter(requests[..handled], authScope, old(saved)))
    {
      handled := 0;
      var cached := CacheLookup(file, authScope, now);
      match cached
      case Err(e) =>
        fault := Some(e);
        return;
      case Ok(Some(t)) =>
        fault := None;
        accessToken := Some(t);
        return;
      case Ok(None) =>
        fault := None;
      ghost var start := accessToken;
      while accessToken.None? && handled < |requests|
        invariant handled <= |requests|
        invariant authScope == old(authScope)
        invariant handled == 0 ==> accessToken == start && saved == old(saved)
        invariant start.Some? ==> handled == 0
        invariant handled > 0 ==> accessToken == TokenOf(requests[handled - 1])
        invariant forall j :: 0 <= j < handled - 1 ==> TokenOf(requests[j]).None?
        invariant saved == SavedAfter(requests[..handled], authScope, old(saved))
      {
        var _ := HandleRequest(requests[handled]);
        assert requests[..handled + 1][..handled] == requests[..handled];
        handled := handled + 1;
      }
      if start.None? {
        if accessToken.Some? {
          ServedWhen(requests, handled - 1);
        } else if handled > 0 {
          ServedWhen(requests, handled);
        }
      }
    }

    /** `get(path, params)`: the request sent; a non-empty `params` also receives the token. */
    method Get(path: string, params: Dict?<string>, enc: Encoder) returns (req: HttpRequest)
      requires params != null ==> params.Valid()
      modifies params
      ensures params != null ==> params.Valid()
      ensures req == GetRequest(Url(accessToken, path, if params == null then None else Some(old(params.items)), true, enc))
      ensures params != null && old(params.items) != [] ==> params.items == WithToken(accessToken, old(params.items))
      ensures params != null && old(params.items) == [] ==> params.items == []
    {
      var url := GetUrl(path, params, true, enc);
      req := GetRequest(url);
    }

    /** `post(path, params)`, given the boundary `choose_boundary` would pick. */
    method Post(path: string, data: Data, enc: Encoder, chosen: string, guess: Guesser) returns (req: HttpRequest)
      ensures req == PostRequest(accessToken, path, data, enc, chosen, guess)
    {
      var url := GetUrl(path, null, true, enc);
      var p := HttpRequestBody(data, enc, chosen, guess);
      req := HttpRequest(if data.NoData? then "GET" else "POST", url, p.body, p.contentType);
    }

    /** `delete(path, params)`: a non-empty `params` receives `method` in place; a null or empty one is replaced. */
    method Delete(path: string, params: Dict?<Value>, enc: Encoder, chosen: string, guess: Guesser) returns (req: HttpRequest)
      requires params != null ==> params.Valid()
      modifies params
      ensures params != null ==> params.Valid()
      ensures var given := if params == null then [] else old(params.items);
              req == PostRequest(accessToken, path, Fields(DeleteItems(given)), enc, chosen, guess)
      ensures params != null && old(params.items) != [] ==> params.items == DeleteItems(old(params.items))
      ensures params != null && old(params.items) == [] ==> params.items == []
    {
      var d: Dict<Value>;
      if params == null || params.items == [] {
        d := new Dict();
      } else {
        d := params;
      }
      d.Assign("method", Text("delete"));
      req := Post(path, Fields(d.items), enc, chosen, guess);
    }

    /** `fql(query)`: a GET of the legacy FQL endpoint. */
    method Fql(query: string, enc: Encoder) returns (req: HttpRequest)
      ensures req == GetRequest(FqlUrl(accessToken, query, enc))
    {
      var args := new Dict();
      args.Assign("query", query);
      args.Assign("format", "json");
      assert args.items == FqlArgs(query);
      var url := GetUrl("/method/fql.query", args, false, enc);
      req := GetRequest(url);
    }
  }
}

/** What the requests built by `post`, `delete` and `fql` carry. */
module ClientFacts {
  import opened Wrappers
  import opened Strings
  import opened ParamDict
  import opened GraphUrl
  import opened Multipart
  import opened MultipartFacts
  import opened Client

  /**
   * `post` goes to the Graph API host for the path, over HTTPS exactly when a token
   * is set, as a POST exactly when it has data, with the body `http_request` makes.
   */
  lemma PostShape(token: Option<string>, path: string, data: Data, enc: Encoder, chosen: string, guess: Guesser)
    ensures var req := PostRequest(token, path, data, enc, chosen, guess);
            && (req.verb == "POST" <==> !data.NoData?)
            && (SchemeOf(req.url) == "https" <==> Truthy(token))
            && HostLabelOf(req.url) == (if Contains(path, "/videos") then "graph-video" else "graph")
            && IsSuffix(path + "?" + enc(FinalArgs(token, None)), req.url)
            && req.body == Prepare(data, enc, chosen, guess).body
            && (req.contentType.Some? <==> data.Fields? && Uploads(data.items) != [])
  {
    UrlReadBack(token, path, None, true, enc);
    PrepareSelectsEncoding(data, enc, chosen, guess);
    assert "client_secret" !in Keys(FinalArgs(token, None));
  }

  /** A list of items holds no file exactly when every value is text. */
  lemma {:induction false} NoUploadsIffAllText(items: Items<Value>)
    ensures Uploads(items) == [] <==> forall i :: 0 <= i < |items| ==> items[i].1.Text?
  {
    if items != [] {
      var init := items[..|items| - 1];
      NoUploadsIffAllText(init);
      assert forall i :: 0 <= i < |init| ==> init[i] == items[i];
    }
  }

  /**
   * `delete` posts the caller's items with `method=delete` added and nothing else
   * changed; without files the URL-encoded scalars carry `method=delete`.
   */
  lemma DeleteSendsMethod(token: Option<string>, path: string, given: Items<Value>, enc: Encoder, chosen: string, guess: Guesser)
    ensures var sent := DeleteItems(given);
            var req := PostRequest(token, path, Fields(sent), enc, chosen, guess);
            && req.verb == "POST"
            && req.url == PostRequest(token, path, NoData, enc, chosen, guess).url
            && (Uploads(given) == [] ==>
                  && req.body == Some(enc(Scalars(sent)))
                  && req.contentType == None
                  && Lookup(Scalars(sent), "method") == Some("delete"))
            && (req.contentType.Some? <==> Uploads(sent) != [])
            && (Uploads(sent) != [] ==> req.contentType == Some(ContentTypeHeader(chosen)))
  {
    var sent := DeleteItems(given);
    ScalarLookup(sent, "method", "delete");
    if Uploads(given) == [] {
      NoUploadsIffAllText(given);
      forall i | 0 <= i < |sent| ensures sent[i].1.Text? {
        assert sent[i] == ("method", Text("delete")) || sent[i] in given;
      }
      NoUploadsIffAllText(sent);
    }
    PrepareSelectsEncoding(Fields(sent), enc, chosen, guess);
  }
}
