/**
 * The credential lifecycle: the record `do_GET` builds from the redirect query,
 * the `expires_in` rule, the cached-token check in `authenticate`, and the
 * specification of its capture loop.
 */
module Credentials {
  import opened Wrappers
  import opened Strings

  /** The values of one key, as `parse_qs` returns them: never an empty list. */
  type Values = s: seq<string> | |s| > 0 witness [""]

  /** A redirect's query string after `parse_qs`. */
  type Query = map<string, Values>

  /** `params.get(key, [None])[0]`. */
  function FirstValue(q: Query, key: string): Option<string> {
    if key in q then Some(q[key][0]) else None
  }

  /** `parse_qs` drops blank values unless asked to keep them. */
  predicate NoBlankValues(q: Query) {
    forall k, i :: k in q && 0 <= i < |q[k]| ==> q[k][i] != ""
  }

  datatype Expiry = Never | At(time: int)

  /** The record written to the token file; `None` for `expiresAt` means the key is absent. */
  datatype Record = Record(scope: seq<string>, accessToken: string, expiresAt: Option<Expiry>)

  /** The Python exceptions the modelled code can raise. */
  datatype Fault = ValueError | KeyError(key: string)

  /**
   * The `expires_at` entry for an `expires_in` value at clock `now`: absent for a
   * missing or empty value, "never" for '0', otherwise `now + int(expires_in)`.
   */
  function ExpiryOf(expiresIn: Option<string>, now: int): (r: Result<Option<Expiry>, Fault>)
    ensures r == Ok(None) <==> !Truthy(expiresIn)
    ensures r == Ok(Some(Never)) <==> expiresIn == Some("0")
    ensures r.Err? <==> Truthy(expiresIn) && expiresIn.value != "0" && ParseInt(expiresIn.value).None?
  {
    if !Truthy(expiresIn) then Ok(None)
    else if expiresIn.value == "0" then Ok(Some(Never))
    else
      match ParseInt(expiresIn.value)
      case None => Err(ValueError)
      case Some(n) => Ok(Some(At(now + n)))
  }

  /** Any other number of seconds N, written as Python writes numbers, expires at now + N. */
  lemma ExpiresInSeconds(n: int, now: int)
    requires n != 0
    ensures ExpiryOf(Some(IntToString(n)), now) == Ok(Some(At(now + n)))
  {
    IntToStringZero(n);
    ParseIntRoundTrip(n);
    assert IntToString(n) != "";
  }

  lemma ExpiresInOneHour(now: int)
    ensures ExpiryOf(Some("3600"), now) == Ok(Some(At(now + 3600)))
  {
    assert NatToString(3) == "3";
    assert NatToString(36) == "36";
    assert NatToString(360) == "360";
    assert NatToString(3600) == "3600";
    ExpiresInSeconds(3600, now);
  }

  /** What `do_GET` does with one redirect: the reply it sends. */
  datatype Reply =
    | LoggedIn(record: Record)   // record written, success page sent
    | FragmentScript             // fragment-to-query script page sent, nothing written
    | Failed(fault: Fault)       // `int(expires_in)` raised after the token was taken

  /** The token `do_GET` assigns to `ACCESS_TOKEN`, and its reply. */
  datatype Step = Step(token: Option<string>, reply: Reply)

  function Capture(q: Query, scope: seq<string>, now: int): (s: Step)
    ensures s.token == FirstValue(q, "access_token")
    ensures s.reply.FragmentScript? <==> !Truthy(s.token)
    ensures s.reply.LoggedIn? ==> s.reply.record.scope == scope && Some(s.reply.record.accessToken) == s.token
    ensures s.reply.LoggedIn? ==> ExpiryOf(FirstValue(q, "expires_in"), now) == Ok(s.reply.record.expiresAt)
    ensures s.reply.LoggedIn? <==> Truthy(s.token) && ExpiryOf(FirstValue(q, "expires_in"), now).Ok?
    ensures s.reply.Failed? <==> Truthy(s.token) && ExpiryOf(FirstValue(q, "expires_in"), now).Err?
    ensures s.reply.Failed? ==> s.reply.fault == ValueError
  {
    var token := FirstValue(q, "access_token");
    if Truthy(token) then
      match ExpiryOf(FirstValue(q, "expires_in"), now)
      case Err(e) => Step(token, Failed(e))
      case Ok(e) => Step(token, LoggedIn(Record(scope, token.value, e)))
    else
      Step(token, FragmentScript)
  }

  /** The `expires_in` rule as it shows in the record `do_GET` writes. */
  lemma CapturedExpiry(q: Query, scope: seq<string>, now: int)
    requires Truthy(FirstValue(q, "access_token"))
    ensures var tok := FirstValue(q, "access_token").value;
            && ("expires_in" !in q ==> Capture(q, scope, now).reply == LoggedIn(Record(scope, tok, None)))
            && (FirstValue(q, "expires_in") == Some("0") ==> Capture(q, scope, now).reply == LoggedIn(Record(scope, tok, Some(Never))))
            && (forall n :: n != 0 && FirstValue(q, "expires_in") == Some(IntToString(n)) ==>
                  Capture(q, scope, now).reply == LoggedIn(Record(scope, tok, Some(At(now + n)))))
  {
    forall n | n != 0 && FirstValue(q, "expires_in") == Some(IntToString(n))
      ensures Capture(q, scope, now).reply == LoggedIn(Record(scope, FirstValue(q, "access_token").value, Some(At(now + n))))
    {
      ExpiresInSeconds(n, now);
    }
  }

  /** With `parse_qs`'s blank-dropping, a request ends the wait exactly when it is answered other than by the script page. */
  lemma TokenEndsWaitIffNotScript(q: Query, scope: seq<string>, now: int)
    requires NoBlankValues(q)
    ensures Capture(q, scope, now).token.Some? <==> !Capture(q, scope, now).reply.FragmentScript?
  {
    if "access_token" in q {
      assert q["access_token"][0] != "";
    }
  }

  const SuccessPage := "You have successfully logged in to facebook with fbconsole. You can close this window now."
  const ScriptPage := "<html><head><script>location = \"?\"+location.hash.slice(1);</script></head></html>"

  /** The text written to the browser for a reply (a failed request writes none). */
  function Page(reply: Reply): string {
    match reply
    case LoggedIn(_) => SuccessPage
    case FragmentScript => ScriptPage
    case Failed(_) => ""
  }

  /** One request reaching the local listener, with the clock when it is handled. */
  datatype Incoming = Incoming(query: Query, now: int)

  /** `ACCESS_TOKEN` after handling request `r`. */
  function TokenOf(r: Incoming): Option<string> {
    FirstValue(r.query, "access_token")
  }

  /**
   * How many of the requests `while ACCESS_TOKEN is None: handle_request()` serves:
   * up to and including the first whose query carries `access_token`.
   */
  function Served(reqs: seq<Incoming>): (n: nat)
    ensures n <= |reqs|
  {
    if reqs == [] then 0
    else if TokenOf(reqs[0]).Some? then 1
    else 1 + Served(reqs[1..])
  }

  /** The loop waits until and only until a request carries a token. */
  lemma {:induction false} ServedStopsAtFirstToken(reqs: seq<Incoming>)
    ensures forall j :: 0 <= j < Served(reqs) - 1 ==> TokenOf(reqs[j]).None?
    ensures Served(reqs) < |reqs| ==> Served(reqs) > 0 && TokenOf(reqs[Served(reqs) - 1]).Some?
    ensures (exists j :: 0 <= j < |reqs| && TokenOf(reqs[j]).Some?)
        <==> Served(reqs) > 0 && TokenOf(reqs[Served(reqs) - 1]).Some?
  {
    if reqs != [] && TokenOf(reqs[0]).None? {
      ServedStopsAtFirstToken(reqs[1..]);
      assert forall j :: 1 <= j < |reqs| ==> reqs[j] == reqs[1..][j - 1];
      if exists j :: 0 <= j < |reqs| && TokenOf(reqs[j]).Some? {
        var j :| 0 <= j < |reqs| && TokenOf(reqs[j]).Some?;
        assert TokenOf(reqs[1..][j - 1]).Some?;
      }
    }
  }

  /** Where the loop stops: after the first request carrying a token, or when the requests run out. */
  lemma {:induction false} ServedWhen(reqs: seq<Incoming>, i: nat)
    requires i <= |reqs|
    requires forall j :: 0 <= j < i ==> TokenOf(reqs[j]).None?
    requires i == |reqs| || TokenOf(reqs[i]).Some?
    ensures Served(reqs) == if i == |reqs| then i else i + 1
  {
    if i > 0 {
      assert forall j :: 0 <= j < i - 1 ==> TokenOf(reqs[1..][j]) == TokenOf(reqs[j + 1]);
      ServedWhen(reqs[1..], i - 1);
    }
  }

  /** The record in the token file after the handler has served `reqs` in order, starting from `saved`. */
  function SavedAfter(reqs: seq<Incoming>, scope: seq<string>, saved: Option<Record>): Option<Record> {
    if reqs == [] then saved
    else
      var last := reqs[|reqs| - 1];
      match Capture(last.query, scope, last.now).reply
      case LoggedIn(r) => Some(r)
      case _ => SavedAfter(reqs[..|reqs| - 1], scope, saved)
  }

  lemma {:induction false} NoTokenNoWrite(reqs: seq<Incoming>, scope: seq<string>, saved: Option<Record>)
    requires forall j :: 0 <= j < |reqs| ==> TokenOf(reqs[j]).None?
    ensures SavedAfter(reqs, scope, saved) == saved
  {
    if reqs != [] {
      var last := reqs[|reqs| - 1];
      assert TokenOf(last).None?;
      NoTokenNoWrite(reqs[..|reqs| - 1], scope, saved);
    }
  }

  /** While the loop waits, only the request that ends the wait can write a record. */
  lemma OnlyLastWrites(reqs: seq<Incoming>, scope: seq<string>, saved: Option<Record>)
    requires |reqs| > 0
    requires forall j :: 0 <= j < |reqs| - 1 ==> TokenOf(reqs[j]).None?
    ensures var last := reqs[|reqs| - 1];
            var reply := Capture(last.query, scope, last.now).reply;
            SavedAfter(reqs, scope, saved) == if reply.LoggedIn? then Some(reply.record) else saved
  {
    NoTokenNoWrite(reqs[..|reqs| - 1], scope, saved);
  }

  /** A JSON scalar as `json.loads` returns it for `expires_at`. */
  datatype Json = JNull | JBool(b: bool) | JInt(i: int) | JStr(s: string)

  /** A parsed token file: each field is `None` when its key is missing. */
  datatype Cached = Cached(expiresAt: Option<Json>, scope: Option<seq<string>>, accessToken: Option<string>)

  /** The token file: missing, not JSON, or holding an object. */
  datatype TokenFile = NoFile | Unparsable | Holds(cached: Cached)

  /** Python truthiness of a JSON scalar. */
  predicate JsonTruthy(v: Json) {
    match v
    case JNull => false
    case JBool(b) => b
    case JInt(i) => i != 0
    case JStr(s) => s != ""
  }

  /** Python 2's `v > time.time()`: numbers compare by value, every `str` exceeds every number. */
  predicate ExceedsClock(v: Json, now: int) {
    match v
    case JNull => false
    case JBool(b) => (if b then 1 else 0) > now
    case JInt(i) => i > now
    case JStr(_) => true
  }

  /** `expires_at and (expires_at == 'never' or expires_at > time.time())` */
  predicate StillValid(expiresAt: Option<Json>, now: int)
    ensures StillValid(expiresAt, now) ==> expiresAt.Some? && JsonTruthy(expiresAt.value)
    ensures expiresAt == Some(JStr("never")) ==> StillValid(expiresAt, now)
    ensures (forall i :: expiresAt == Some(JInt(i)) ==> (StillValid(expiresAt, now) <==> i != 0 && i > now))
  {
    expiresAt.Some? && JsonTruthy(expiresAt.value)
    && (expiresAt.value == JStr("never") || ExceedsClock(expiresAt.value, now))
  }

  function SeqSet(s: seq<string>): set<string> {
    set x | x in s
  }

  /**
   * The cache step of `authenticate`: `Ok(Some(t))` adopts token `t` and skips the
   * login, `Ok(None)` goes on to log in, `Err` is the exception raised.
   */
  function CacheLookup(file: TokenFile, authScope: seq<string>, now: int): (r: Result<Option<string>, Fault>)
    ensures r.Ok? && r.value.Some? ==> file.Holds? && StillValid(file.cached.expiresAt, now) && file.cached.accessToken == r.value
    ensures file.NoFile? ==> r == Ok(None)
    ensures r == Err(ValueError) <==> file.Unparsable?
    ensures r == Err(KeyError("scope")) <==> file.Holds? && StillValid(file.cached.expiresAt, now) && file.cached.scope.None?
    ensures r == Err(KeyError("access_token"))
        <==> && file.Holds? && StillValid(file.cached.expiresAt, now) && file.cached.scope.Some?
             && SeqSet(authScope) <= SeqSet(file.cached.scope.value) && file.cached.accessToken.None?
    ensures file.Holds? && !StillValid(file.cached.expiresAt, now) ==> r == Ok(None)
  {
    match file
    case NoFile => Ok(None)
    case Unparsable => Err(ValueError)
    case Holds(c) =>
      if !StillValid(c.expiresAt, now) then Ok(None)
      else if c.scope.None? then Err(KeyError("scope"))
      else if !(SeqSet(authScope) <= SeqSet(c.scope.value)) then Ok(None)
      else if c.accessToken.None? then Err(KeyError("access_token"))
      else Ok(Some(c.accessToken.value))
  }

  /** A cached token is adopted exactly when the record is still valid and its scope covers the requested one. */
  lemma CacheAdoptsIff(file: TokenFile, authScope: seq<string>, now: int, t: string)
    ensures CacheLookup(file, authScope, now) == Ok(Some(t))
        <==> && file.Holds?
             && StillValid(file.cached.expiresAt, now)
             && file.cached.scope.Some?
             && (forall x :: x in authScope ==> x in file.cached.scope.value)
             && file.cached.accessToken == Some(t)
  {
    if file.Holds? && file.cached.scope.Some? {
      var granted := file.cached.scope.value;
      if SeqSet(authScope) <= SeqSet(granted) {
        forall x | x in authScope ensures x in granted {
          assert x in SeqSet(authScope);
        }
      }
      if forall x :: x in authScope ==> x in granted {
        forall x | x in SeqSet(authScope) ensures x in SeqSet(granted) {
        }
      }
    }
  }

  /** The validity rule for the two forms the capture writes, and for an absent entry. */
  lemma ValidityOfWrittenForms(t: int, now: int)
    ensures StillValid(Some(JStr("never")), now)
    ensures StillValid(Some(JInt(t)), now) <==> t != 0 && t > now
    ensures !StillValid(None, now) && !StillValid(Some(JNull), now)
  {
  }

  /** Python 2's ordering makes any non-empty string in `expires_at` count as unexpired. */
  lemma AnyStringNeverExpires(s: string, now: int)
    requires s != ""
    ensures StillValid(Some(JStr(s)), now)
  {
  }

  /** Asking for fewer permissions never turns an adopted cache into a login. */
  lemma FewerScopesStillAdopt(file: TokenFile, wanted: seq<string>, fewer: seq<string>, now: int)
    requires forall x :: x in fewer ==> x in wanted
    requires CacheLookup(file, wanted, now).Ok? && CacheLookup(file, wanted, now).value.Some?
    ensures CacheLookup(file, fewer, now) == CacheLookup(file, wanted, now)
  {
    assert SeqSet(fewer) <= SeqSet(wanted);
  }

  /** The JSON value the token file holds for a record's `expires_at`. */
  function StoredExpiry(e: Option<Expiry>): Option<Json> {
    match e
    case None => None
    case Some(Never) => Some(JStr("never"))
    case Some(At(t)) => Some(JInt(t))
  }

  /**
   * If the token file is read back with the fields the capture wrote, a later
   * `authenticate` adopts the token exactly when it asks for a subset of the scope
   * and the record has not expired.
   */
  lemma CapturedRecordReused(q: Query, scope: seq<string>, now: int, wanted: seq<string>, later: int)
    requires Capture(q, scope, now).reply.LoggedIn?
    ensures var r := Capture(q, scope, now).reply.record;
            var file := Holds(Cached(StoredExpiry(r.expiresAt), Some(r.scope), Some(r.accessToken)));
            (CacheLookup(file, wanted, later) == Ok(Some(r.accessToken))
             <==> && (forall x :: x in wanted ==> x in scope)
                  && match r.expiresAt
                     case None => false
                     case Some(Never) => true
                     case Some(At(t)) => t != 0 && t > later)
  {
    var r := Capture(q, scope, now).reply.record;
    var file := Holds(Cached(StoredExpiry(r.expiresAt), Some(r.scope), Some(r.accessToken)));
    CacheAdoptsIff(file, wanted, later, r.accessToken);
  }
}
