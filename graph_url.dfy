/** The request-URL builder `_get_url` and the argument map that `fql` passes to it. */
module GraphUrl {
  import opened Wrappers
  import opened Strings
  import opened ParamDict

  /** The arguments once `_get_url` has put a set session token in. */
  function WithToken(token: Option<string>, args: Items<string>): (r: Items<string>)
    ensures Truthy(token) ==> Lookup(r, "access_token") == Some(token.value)
    ensures Keys(r) == if Truthy(token) then Keys(args) + {"access_token"} else Keys(args)
    ensures forall k :: k != "access_token" ==> Lookup(r, k) == Lookup(args, k)
    ensures !Truthy(token) ==> r == args
  {
    if Truthy(token) then Updated(args, "access_token", token.value) else args
  }

  /** The host label: `graph-video` for video paths on the Graph API, `graph` for other Graph API paths, `api` otherwise. */
  function Subdomain(path: string, graph: bool): (r: string)
    ensures r == "graph-video" <==> graph && Contains(path, "/videos")
    ensures r == "graph" <==> graph && !Contains(path, "/videos")
    ensures r == "api" <==> !graph
  {
    if graph then
      if Contains(path, "/videos") then "graph-video" else "graph"
    else
      // the source re-tests `graph` here; this branch always yields "api"
      if graph then "graph" else "api"
  }

  /** HTTPS exactly when the arguments carry a credential. */
  function Scheme(args: Items<string>): (r: string)
    ensures r == "https" || r == "http"
    ensures r == "https" <==> Lookup(args, "access_token").Some? || Lookup(args, "client_secret").Some?
  {
    if "access_token" in Keys(args) || "client_secret" in Keys(args) then "https" else "http"
  }

  function Endpoint(scheme: string, host: string): string {
    scheme + "://" + host + ".facebook.com"
  }

  /** `endpoint + str(path) + '?' + urlencode(args)` for the final arguments. */
  function Assemble(args: Items<string>, path: string, graph: bool, enc: Encoder): string {
    Endpoint(Scheme(args), Subdomain(path, graph)) + (path + "?" + enc(args))
  }

  /** The arguments `_get_url` encodes: `args or {}`, then the token. */
  function FinalArgs(token: Option<string>, args: Option<Items<string>>): Items<string> {
    WithToken(token, if args.Some? then args.value else [])
  }

  /** The URL `_get_url(path, args, graph)` returns while the session holds `token`. */
  function Url(token: Option<string>, path: string, args: Option<Items<string>>, graph: bool, enc: Encoder): (r: string)
    ensures IsPrefix(Scheme(FinalArgs(token, args)) + "://" + Subdomain(path, graph) + ".facebook.com", r)
    ensures IsSuffix(path + "?" + enc(FinalArgs(token, args)), r)
  {
    var a := FinalArgs(token, args);
    var endpoint := Endpoint(Scheme(a), Subdomain(path, graph));
    var r := Assemble(a, path, graph, enc);
    assert r == endpoint + (path + "?" + enc(a));
    assert r[..|endpoint|] == endpoint;
    assert r[|r| - |path + "?" + enc(a)|..] == path + "?" + enc(a);
    r
  }

  /** The scheme of a URL: the text before its first ':'. */
  function SchemeOf(url: string): string {
    TakeUntil(url, ':')
  }

  /** The first label of a URL's host: between "://" and the first '.'. */
  function HostLabelOf(url: string): string {
    var rest := DropThrough(url, ':');
    if |rest| >= 2 then TakeUntil(rest[2..], '.') else ""
  }

  lemma {:induction false} EndpointReadBack(scheme: string, host: string, rest: string)
    requires ':' !in scheme && '.' !in host
    ensures SchemeOf(Endpoint(scheme, host) + rest) == scheme
    ensures HostLabelOf(Endpoint(scheme, host) + rest) == host
  {
    var tail := "facebook.com" + rest;
    var after := "//" + host + "." + tail;
    assert Endpoint(scheme, host) + rest == scheme + [':'] + after;
    SplitAtFirst(scheme, ':', after);
    assert after[2..] == host + ['.'] + tail;
    SplitAtFirst(host, '.', tail);
  }

  /** What a reader of the URL string finds in it: scheme, host and query part. */
  lemma UrlReadBack(token: Option<string>, path: string, args: Option<Items<string>>, graph: bool, enc: Encoder)
    ensures var a := FinalArgs(token, args);
            var url := Url(token, path, args, graph, enc);
            && SchemeOf(url) == Scheme(a)
            && HostLabelOf(url) == Subdomain(path, graph)
            && IsSuffix(path + "?" + enc(a), url)
  {
    var a := FinalArgs(token, args);
    var s, h := Scheme(a), Subdomain(path, graph);
    assert ':' !in s by {
      assert s == "https" || s == "http";
    }
    assert '.' !in h by {
      assert h == "graph-video" || h == "graph" || h == "api";
    }
    EndpointReadBack(s, h, path + "?" + enc(a));
  }

  /** The host rule: graph-video for video paths on the Graph API, graph otherwise, api for the legacy API. */
  lemma UrlHost(token: Option<string>, path: string, args: Option<Items<string>>, graph: bool, enc: Encoder)
    ensures var host := HostLabelOf(Url(token, path, args, graph, enc));
            && (host == "graph-video" <==> graph && Contains(path, "/videos"))
            && (host == "graph" <==> graph && !Contains(path, "/videos"))
            && (host == "api" <==> !graph)
  {
    UrlReadBack(token, path, args, graph, enc);
  }

  /** HTTPS exactly when the final arguments carry a credential; a set token always forces it. */
  lemma UrlScheme(token: Option<string>, path: string, args: Option<Items<string>>, graph: bool, enc: Encoder)
    ensures var a := FinalArgs(token, args);
            var scheme := SchemeOf(Url(token, path, args, graph, enc));
            && (scheme == "https" <==> "access_token" in Keys(a) || "client_secret" in Keys(a))
            && (scheme == "http" <==> !("access_token" in Keys(a) || "client_secret" in Keys(a)))
            && (Truthy(token) ==> scheme == "https")
  {
    UrlReadBack(token, path, args, graph, enc);
  }

  /** The argument map `fql` builds; Python 2 leaves its order unspecified. */
  function FqlArgs(query: string): Items<string> {
    [("query", query), ("format", "json")]
  }

  function FqlUrl(token: Option<string>, query: string, enc: Encoder): string {
    Url(token, "/method/fql.query", Some(FqlArgs(query)), false, enc)
  }

  lemma FqlArgsContents(query: string)
    ensures Keys(FqlArgs(query)) == {"query", "format"}
    ensures Lookup(FqlArgs(query), "query") == Some(query)
    ensures Lookup(FqlArgs(query), "format") == Some("json")
  {
    var args := FqlArgs(query);
    assert args[1..] == [("format", "json")];
    assert args[1..][1..] == [];
    assert Keys(args[1..]) == {"format"} + Keys(args[1..][1..]);
  }

  /** An FQL call goes to the api host, over HTTPS exactly when a token is set, carrying the query. */
  lemma FqlUrlShape(token: Option<string>, query: string, enc: Encoder)
    ensures var url := FqlUrl(token, query, enc);
            var a := FinalArgs(token, Some(FqlArgs(query)));
            && HostLabelOf(url) == "api"
            && (SchemeOf(url) == "https" <==> Truthy(token))
            && Lookup(a, "query") == Some(query)
            && Lookup(a, "format") == Some("json")
            && IsSuffix("/method/fql.query?" + enc(a), url)
  {
    var args := FqlArgs(query);
    var a := FinalArgs(token, Some(args));
    FqlArgsContents(query);
    assert "client_secret" !in Keys(a);
    UrlReadBack(token, "/method/fql.query", Some(args), false, enc);
  }
}
