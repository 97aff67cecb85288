# fbconsole core, modelled in Dafny

fbconsole is a small interactive Python 2 client for the Facebook Graph API. This
project models the parts of `src/fbconsole.py` whose behaviour can be stated exactly,
and proves properties of that model:

- **Request-URL builder** (`_get_url`): injects the session's access token into the
  argument dict, then picks the host (`graph`, `graph-video` or `api`) and the
  scheme (`https` when a credential is present). The URL is
  `endpoint + path + '?' + urlencode(args)`.
- **POST body encoder** (`_MultipartPostHandler.http_request` and
  `multipart_encode`): splits the data into scalars and files. Without files it
  URL-encodes the scalars. With files it builds a `multipart/form-data` body
  (RFC 7578; delimiter lines `--B` and `--B--` as in section 5.1.1 of RFC 2046)
  and adds a `Content-Type` header with the same boundary.
- **Credential lifecycle**: `do_GET` turns the OAuth redirect's query into the token
  record, including the `expires_in` rule. `authenticate` checks the cached record's
  validity, then loops on the local listener while `ACCESS_TOKEN is None`.
- **Parameter rewriting** in `get`, `post`, `delete` and `fql`.

Modules, one file each (except that `MultipartFacts` shares `multipart.dfy` and
`ClientFacts` shares `client.dfy`):

- `Wrappers`: `Option` and `Result`.
- `Strings`: Python truthiness, `in`, `split('/')[-1]` and Python 2's `int()` on
  strings.
- `ParamDict`: a Python dict as its items in iteration order. The `Dict` class is a
  dict object that callers and callees share and update in place.
- `GraphUrl`: the URL rules.
- `Multipart`: the body encoder, written as the source's loops.
- `MultipartFacts`: properties of the bodies.
- `Credentials`: the redirect record, the cache check and the specification of the
  capture loop.
- `Client`: a `Session` class. Its fields are the module globals `ACCESS_TOKEN` and
  `AUTH_SCOPE`, plus the record last written to the token file.
- `ClientFacts`: what `post` and `delete` send.

Library calls and the environment become parameters:

- `urllib.urlencode` is a function `Encoder` from items to string.
- `mimetypes.guess_type(...)[0]` is a function `Guesser`.
- `mimetools.choose_boundary()` is the string `chosen`.
- `time.time()` is an integer `now`.
- The content of `.fb_access_token` is a `TokenFile` value.
- The requests that reach the listener are a finite sequence of `Incoming` values.

Running out of requests while `ACCESS_TOKEN` is still `None` stands for
`authenticate` never returning.

Behaviour of the code worth knowing:

- **Malformed or incomplete token file.** `json.loads` raises on a malformed file
  (`Unparsable` gives `Err(ValueError)`). A still-valid record without `scope`
  raises `KeyError`. A still-valid record whose scope covers `AUTH_SCOPE` but that
  has no `access_token` raises `KeyError` too. A record whose scope falls short is
  skipped before `access_token` is read, so its missing token raises nothing.
  `CacheLookup` returns these exceptions as `Err`.
- **Validity rule.** `expires_at` must be truthy, so `0` is never valid. It must also
  be `'never'` or exceed the clock. Python 2 orders every `str` above every number,
  so any non-empty string counts as unexpired (`AnyStringNeverExpires`).
- **End of the wait.** The loop stops once `ACCESS_TOKEN` is not `None`. That
  includes a request whose `expires_in` makes `int()` raise. The token is then
  adopted but no record is written (reply `Failed`).

## Model

| member | source | states |
|---|---|---|
| Strings.LastSegment | src/fbconsole.py:110 | the file name sent is a suffix of `fd.name` with no `/`, preceded by a `/` unless it is the whole name |
| Strings.ParseIntRoundTrip | src/fbconsole.py:141 | `int()` reads back every integer written in decimal |
| ParamDict.Lookup | src/fbconsole.py:66 | `k in d` holds exactly when a lookup finds a value |
| ParamDict.Updated | src/fbconsole.py:59 | `d[k] = v` makes `k` map to `v` and leaves every other key's value alone; an existing key keeps the number of items, a new one goes last; no new value other than `(k, v)` appears |
| ParamDict.UpdatedInPlace | src/fbconsole.py:59 | in a dict, assignment changes the entry of `k` where it stands and leaves every other entry at its position |
| ParamDict.UpdatedKeepsDistinct | src/fbconsole.py:59 | assignment keeps a dict's keys distinct |
| ParamDict.Dict.Assign | src/fbconsole.py:238 | the dict object's new items are the old ones with `k` set to `v`, and it stays a valid dict |
| GraphUrl.Subdomain | src/fbconsole.py:60-65 | the host label is `graph-video` iff Graph API and the path contains `/videos`, `graph` iff Graph API without it, `api` iff not Graph API |
| GraphUrl.Scheme | src/fbconsole.py:66-69 | the scheme is `https` iff the arguments hold `access_token` or `client_secret`, and `http` otherwise |
| GraphUrl.Url | src/fbconsole.py:56-70 | the URL starts with `scheme://host.facebook.com` by the two rules and ends with `path + '?' + urlencode(args)` for the final arguments |
| GraphUrl.WithToken | src/fbconsole.py:57-59 | a set token is put under `access_token` and every other entry is unchanged; an unset token leaves the arguments as they were |
| GraphUrl.UrlReadBack | src/fbconsole.py:56-70 | the URL's scheme is the scheme rule's, its host label is the host rule's, and it ends with `path + '?' + urlencode(args)` |
| GraphUrl.UrlHost | src/fbconsole.py:60-65 | host is `graph-video` iff Graph API and the path contains `/videos`, `graph` iff Graph API without it, `api` iff not Graph API |
| GraphUrl.UrlScheme | src/fbconsole.py:66-69 | `https` iff the final arguments hold `access_token` or `client_secret`, otherwise `http`; a set token forces `https` |
| GraphUrl.FqlArgsContents | src/fbconsole.py:249-251 | the FQL arguments are exactly `query` and `format=json` |
| GraphUrl.FqlUrlShape | src/fbconsole.py:249-251 | an FQL URL goes to host `api`, over HTTPS iff a token is set, carries the query and `format=json`, and ends with `/method/fql.query?` and the encoded arguments |
| Multipart.SplitIsLossless | src/fbconsole.py:81-85 | every item lands in exactly one of files or params, and merging them back in iteration order rebuilds the data |
| Multipart.SplitFields | src/fbconsole.py:78-85 | the loop's two lists are the file items and the scalar items, each in iteration order |
| Multipart.ScalarPart | src/fbconsole.py:105-107 | each scalar part opens with the delimiter line `--B` CRLF |
| Multipart.ContentTypeOf | src/fbconsole.py:111 | the part's type is the guessed type when the guess is a non-empty string, and `application/octet-stream` exactly when there is no guess or the guess is empty or that same default |
| Multipart.FilePart | src/fbconsole.py:110-117 | each file part opens with the delimiter line `--B` CRLF |
| Multipart.Parts | src/fbconsole.py:104-117 | one part per scalar in order, then one per file in order, so there are `len(params) + len(files)` parts, each opened by a delimiter line |
| Multipart.Body | src/fbconsole.py:102-118 | the body starts with the buffer, ends with the close delimiter, and holds the concatenated parts between them |
| Multipart.MultipartEncode | src/fbconsole.py:101-119 | the boundary is the given one or, when that is unset, the chosen one; the body is the buffer (or empty), then every part in order, then exactly `--B--` CRLF CRLF |
| Multipart.Prepare | src/fbconsole.py:76-97 | the request has no body iff it had no data; a header is added iff the data is a mapping holding a file, and it is `multipart/form-data; boundary=B` for the chosen B; a string passes through |
| Multipart.HttpRequestBody | src/fbconsole.py:75-97 | the prepared body and header are the ones the selection rule `Prepare` gives |
| MultipartFacts.PrepareSelectsEncoding | src/fbconsole.py:76-97 | `None` and strings pass through; a header is added iff the data holds a file; without files the body is `urlencode(params)`; with files the header is `multipart/form-data; boundary=B` and the body opens with `--B` and ends with `--B--` using that same B |
| MultipartFacts.MultipartFrame | src/fbconsole.py:104-118 | a body with at least one part starts with the opening delimiter and ends with the close delimiter |
| MultipartFacts.OneScalarOneFile | src/fbconsole.py:104-118 | a scalar and a file give exactly the scalar part, the file part and the close delimiter, in that order |
| MultipartFacts.ScalarLookup | src/fbconsole.py:84-90 | a key's text value is what the URL-encoded scalars give for that key |
| Strings.ParseInt | src/fbconsole.py:141 | blank input is rejected; a plain digit string is read as its decimal value; a negative result needs a leading `-` |
| Credentials.ExpiryOf | src/fbconsole.py:135-141 | no `expires_at` iff `expires_in` is missing or empty; `never` iff it is `'0'`; an error iff `int()` rejects it |
| Credentials.ExpiresInSeconds | src/fbconsole.py:141 | any other number N of seconds expires at `now + N` |
| Credentials.ExpiresInOneHour | src/fbconsole.py:141 | `expires_in=3600` expires at `now + 3600` |
| Credentials.Capture | src/fbconsole.py:130-141 | `ACCESS_TOKEN` becomes the first `access_token` value; the script page is sent iff that is unset or empty; a record is written iff the token is set and `expires_in` is accepted, and the reply is `ValueError` iff the token is set and `int()` rejects `expires_in`; a written record holds `AUTH_SCOPE`, the token and the `expires_in` rule's expiry |
| Credentials.CapturedExpiry | src/fbconsole.py:133-141 | the record has no `expires_at` when `expires_in` is absent, `never` for `'0'`, and `now + N` for any other number N |
| Credentials.TokenEndsWaitIffNotScript | src/fbconsole.py:130-132 | with the blank values `parse_qs` drops, a request sets a token iff it is not answered with the script page |
| Credentials.Served | src/fbconsole.py:193-194 | the loop handles at most the requests that arrive |
| Credentials.ServedStopsAtFirstToken | src/fbconsole.py:193-194 | no request before the last one handled carries a token; the loop stops early only on a token; some request carries a token iff the last one handled does |
| Credentials.ServedWhen | src/fbconsole.py:193-194 | the loop handles exactly the requests up to and including the first that carries a token, or all of them when none does |
| Credentials.NoTokenNoWrite | src/fbconsole.py:132-142 | requests without a token write no record |
| Credentials.OnlyLastWrites | src/fbconsole.py:132-142 | while waiting, the token file ends up with the record of the request that ends the wait, or is left as it was |
| Credentials.StillValid | src/fbconsole.py:178-179 | a valid `expires_at` is present and truthy; `'never'` is valid; an integer time is valid iff it is nonzero and later than the clock |
| Credentials.CacheLookup | src/fbconsole.py:176-182 | an adopted token is the record's own, from an unexpired record; a missing file or an expired record means a login; a malformed file raises `ValueError`; `KeyError('scope')` iff an unexpired record has no scope; `KeyError('access_token')` iff an unexpired, sufficiently-scoped record has no token |
| Credentials.CacheAdoptsIff | src/fbconsole.py:176-182 | the cached token is adopted iff the file holds a record whose `expires_at` is truthy and `never` or later than now, whose scope covers every requested scope, and that has a token |
| Credentials.ValidityOfWrittenForms | src/fbconsole.py:178-179 | `never` is valid; a time `t` is valid iff `t != 0` and `t > now`; an absent or null `expires_at` is never valid |
| Credentials.AnyStringNeverExpires | src/fbconsole.py:179 | under Python 2's ordering, any non-empty string in `expires_at` counts as unexpired |
| Credentials.FewerScopesStillAdopt | src/fbconsole.py:180 | asking for a subset of the scopes never turns an adopted cache into a login |
| Credentials.CapturedRecordReused | src/fbconsole.py:176-182 | if a captured record is read back field for field, a later `authenticate` adopts its token iff the requested scopes are within the record's and the record is `never` or a nonzero time later than the clock |
| Client.DeleteItems | src/fbconsole.py:236-238 | `method` maps to `delete`, the keys are the caller's plus `method`, and every other entry is unchanged |
| Client.Session.constructor | src/fbconsole.py:37-39 | the session starts with no token and an empty scope |
| Client.Session.GetUrl | src/fbconsole.py:56-70 | the URL is the one the URL rules give for the session's token; a caller's non-empty dict gets the token in place, and a null or empty one is left as it was; the caller's dict stays a valid dict |
| Client.Session.HandleRequest | src/fbconsole.py:124-148 | `ACCESS_TOKEN` becomes the query's token, the page written is the reply's page, and the token file changes exactly as `Capture` says; the scope is unchanged |
| Client.Session.Authenticate | src/fbconsole.py:174-194 | a cache error raises and changes nothing; an adopted cache sets the token without a login; otherwise, unless a token was already set, it handles exactly `Served(requests)` requests, ends with the last one's token, and leaves the token file as those requests wrote it |
| Client.Session.Get | src/fbconsole.py:201-210 | a GET of `_get_url(path, params)`, with the caller's non-empty dict updated in place and still a valid dict |
| Client.Session.Post | src/fbconsole.py:212-225 | the request is the token-bearing Graph URL with the body and header the selection rule gives, sent as POST when there is data |
| Client.Session.Delete | src/fbconsole.py:227-239 | the request is `post` of the caller's items (or `{}`) with `method=delete`; a non-empty caller dict receives `method` in place and stays a valid dict |
| Client.Session.Fql | src/fbconsole.py:241-252 | a GET of the FQL URL built from `{query, format: json}` with the legacy API host |
| Client.PostRequest | src/fbconsole.py:222-225 | POST iff there is data, otherwise GET with no body; a header iff the data holds a file; the URL ends with `path?` and the encoded token-only arguments |
| ClientFacts.PostShape | src/fbconsole.py:222-225 | POST iff there is data; HTTPS iff a token is set; host `graph` or `graph-video` by the path; the body and a header (present iff files) are those of `http_request` |
| ClientFacts.NoUploadsIffAllText | src/fbconsole.py:82-89 | the data holds no file iff every value is text |
| ClientFacts.DeleteSendsMethod | src/fbconsole.py:236-239 | `delete` sends a POST to the same URL as `post`; without files the URL-encoded body carries `method=delete` and no header; a header is sent iff the sent items hold a file |

## Left out

- Network I/O is not modelled: `urlopen`, `build_opener`, the cookie jar and `json.load` of responses. The model stops at the request it would send.
- The browser launch and the OAuth dialog URL, the `BaseHTTPServer` listener, its port, and the response status and headers are I/O. Only the per-request transition is modelled.
- File-system effects are abstract. The token file is a `TokenFile` value, and the last record written is the `saved` field. `os.fstat` (whose result the source never uses) and `fd.seek`/`fd.read` become the file's `content`.
- JSON encoding and decoding of the token file is not modelled. `CapturedRecordReused` takes the read-back record as a hypothesis, and no JSON round trip is claimed.
- `logout`, `help`, `shell` and `INTRO_MESSAGE` are file removal and console text; they are not modelled.
- `time.time()` is a float. The clock is an integer, so the `int()` truncation of `time.time() + N` is not modelled. Comparing a float clock with a cached time is modelled as comparing integers.
- Strings.ParseInt: models Python 2's `int()` on a `str` as surrounding whitespace, one optional sign and decimal digits. Whitespace between the sign and the digits is rejected here, although Python 2 accepts it when the value fits a machine word.
- Credentials.CacheLookup: keeps only JSON null, booleans, integers and strings for `expires_at`. A present `scope` is a list of strings and `access_token` a string. Other JSON shapes in those fields are not modelled.
- Multipart.SplitFields: the `TypeError` re-raise on lines 86-87 is not modelled. Data is always `None`, a string, or a mapping.
- Multipart.MultipartEncode: scalar values are byte strings. A non-`str` value raises at line 107 (an int, say), or makes `buffer` unicode so that joining non-ASCII file bytes raises at line 117; the model returns a body in both cases.
- Multipart.Parts: counts parts, each opened by a delimiter line. It does not count occurrences of `--B` CRLF in the body text, since values and file contents may contain that text.
- The percent-encoding in `urlencode`, `mimetypes.guess_type` and `mimetools.choose_boundary` are parameters with no properties assumed.
- Python 2 dict iteration order is unspecified. Dicts are ordered item sequences: assignment replaces in place or appends, and FQL's arguments are listed in one fixed order.
- `urlparse` and `parse_qs` are not modelled. A redirect arrives as its parsed query, a map from key to a non-empty list of values.
