/** The axios instance `api` with its two interceptors: every request carries the stored
    access token as a bearer credential, and a 401 on a request not yet marked `_retry`
    exchanges the refresh token for a new access token and replays that request once.
    The refresh call is itself a call through `api`, so it passes through the same two
    interceptors; there is no shared refresh state. */
module Interceptor {
  import opened Base
  import opened Storage

  /** An outbound request as axios holds it: target, headers, body and the `_retry` mark. */
  datatype Config = Config(url: string, headers: map<string, string>, body: Json, retry: bool)

  datatype Response = Response(status: int, data: Json)

  /** What the network does with one attempt: axios fulfils 2xx replies and rejects the
      others; `response` is missing when no reply arrived at all. */
  datatype Reply = Fulfilled(answer: Response) | Rejected(failure: Option<Response>)

  /** How the promise handed back to the caller settles. */
  datatype Settled = Resolves(response: Option<Response>) | Rejects(reason: string)

  /** One stage of the response-error handler: it settles, it awaits a refresh call for
      the (now marked) original request, or it replays that request. */
  datatype Step =
    | Settle(store: Store, result: Settled)
    | Refresh(original: Config, token: string)
    | Replay(store: Store, config: Config)

  /** A whole call through `api`: final store, settlement, the attempts of this request
      put on the wire, and how many refresh calls were posted on its behalf (nested ones
      included). `Unsettled` is a call still awaiting a chain of nested refresh calls
      deeper than the fuel it was given. */
  datatype Outcome =
    | Outcome(store: Store, result: Settled, sent: seq<Config>, refreshes: nat)
    | Unsettled(store: Store, refreshes: nat)

  const AuthorizationHeader := "Authorization"
  const Unauthorized := 401
  const RefreshPath := "/api/token/refresh/"

  /** The TypeError thrown when line 39 reads `.data` of an undefined refresh result, or `.access` of null data. */
  const ReadError := "TypeError: cannot read the refresh response"

  function Bearer(token: string): string
  {
    "Bearer " + token
  }

  /** `api.post("/api/token/refresh/", { refresh: refreshToken })`, before the request interceptor. */
  function RefreshRequest(token: string): Config
  {
    Config(RefreshPath, map[], JObj(map["refresh" := JStr(token)]), false)
  }

  /** The request interceptor. */
  function AttachBearer(store: Store, config: Config): (c: Config)
    ensures Holds(store, AccessKey) ==>
      AuthorizationHeader in c.headers && c.headers[AuthorizationHeader] == Bearer(store[AccessKey])
    ensures forall h :: h != AuthorizationHeader ==>
      (h in c.headers <==> h in config.headers) && (h in c.headers ==> c.headers[h] == config.headers[h])
    ensures c.url == config.url && c.body == config.body && c.retry == config.retry
    ensures !Holds(store, AccessKey) ==> c == config
  {
    if Holds(store, AccessKey) then
      config.(headers := config.headers[AuthorizationHeader := Bearer(store[AccessKey])])
    else
      config
  }

  /** The error is a 401 reply to a request that has not been replayed yet. */
  predicate ExpiredFresh(config: Config, response: Option<Response>)
  {
    response.Some? && response.value.status == Unauthorized && !config.retry
  }

  /** The settled refresh call produced a body whose `access` can be read (possibly as undefined). */
  predicate Readable(refresh: Settled)
  {
    refresh.Resolves? && refresh.response.Some? && !refresh.response.value.data.JNull?
  }

  /** The text `localStorage.setItem` stores for `response.data.access`. */
  function NewAccess(refresh: Settled): string
    requires Readable(refresh)
  {
    Text(Member(refresh.response.value.data, "access"))
  }

  /** The response-error handler up to its `await`. */
  function OnError(store: Store, config: Config, response: Option<Response>): (s: Step)
    // not a fresh 401: the error reply itself resolves, nothing is touched
    ensures !ExpiredFresh(config, response) ==> s == Settle(store, Resolves(response))
    // fresh 401 without a refresh token: tokens dropped, no refresh, the 401 reply resolves
    ensures ExpiredFresh(config, response) && !Holds(store, RefreshKey) ==>
      s == Settle(ClearTokens(store), Resolves(response))
    // otherwise the request is marked and the stored refresh token is posted
    ensures s.Refresh? <==> ExpiredFresh(config, response) && Holds(store, RefreshKey)
    ensures s.Refresh? ==> s.original == config.(retry := true) && s.token == store[RefreshKey]
  {
    if ExpiredFresh(config, response) then
      if !Holds(store, RefreshKey) then Settle(ClearTokens(store), Resolves(response))
      else Refresh(config.(retry := true), store[RefreshKey])
    else
      Settle(store, Resolves(response))
  }

  /** The handler after the refresh call settled; `store` is the storage as that call left it. */
  function Resume(store: Store, original: Config, refresh: Settled): (s: Step)
    ensures !s.Refresh?
    // the refresh call rejected: tokens dropped and the promise rejects with its reason
    ensures refresh.Rejects? ==> s == Settle(ClearTokens(store), Rejects(refresh.reason))
    // it resolved to nothing readable: reading `.access` throws into the same catch
    ensures refresh.Resolves? && !Readable(refresh) ==> s == Settle(ClearTokens(store), Rejects(ReadError))
    // a replay happens exactly after a readable refresh reply, with its `access` stored and sent
    ensures s.Replay? <==> Readable(refresh)
    ensures s.Replay? ==>
      && s.store == store[AccessKey := NewAccess(refresh)]
      && s.config.url == original.url && s.config.body == original.body && s.config.retry == original.retry
      && AuthorizationHeader in s.config.headers
      && s.config.headers[AuthorizationHeader] == Bearer(NewAccess(refresh))
  {
    match refresh
    case Rejects(reason) => Settle(ClearTokens(store), Rejects(reason))
    case Resolves(_) =>
      if !Readable(refresh) then Settle(ClearTokens(store), Rejects(ReadError))
      else
        var access := NewAccess(refresh);
        Replay(store[AccessKey := access], original.(headers := original.headers[AuthorizationHeader := Bearer(access)]))
  }

  /** A call through `api`: request interceptor, the network, and on rejection the error
      handler, whose refresh call is another call through `api` and whose replay is one
      more. `server` answers every attempt, refresh posts included. A replay is always
      marked and a marked request never refreshes; `fuel` bounds how deeply refresh calls
      may nest, since the refresh post is a fresh, unmarked request. */
  function Dispatch(store: Store, config: Config, server: Config -> Reply, fuel: nat): (o: Outcome)
    ensures o.Outcome? ==> 1 <= |o.sent| <= 2 && o.sent[0] == AttachBearer(store, config)
    ensures o.Outcome? ==> forall i :: 0 <= i < |o.sent| ==> o.sent[i].url == config.url
    // the second attempt is the replay of an unmarked request
    ensures o.Outcome? && |o.sent| == 2 ==> !config.retry && o.sent[1].retry && o.refreshes >= 1
    // the refresh token is never written, only removed
    ensures RefreshKey in o.store ==> RefreshKey in store && o.store[RefreshKey] == store[RefreshKey]
    ensures SameOutsideTokens(store, o.store)
    // a request already marked `_retry` never refreshes and never touches the store
    ensures config.retry ==> o.Outcome? && o.store == store && |o.sent| == 1 && o.refreshes == 0
    // a call stays unsettled only behind a chain of fuel + 1 nested refresh calls
    ensures o.Unsettled? ==> o.refreshes == fuel + 1
    decreases fuel, if config.retry then 0 else 1
  {
    var sent := AttachBearer(store, config);
    match server(sent)
    case Fulfilled(response) => Outcome(store, Resolves(Some(response)), [sent], 0)
    case Rejected(response) =>
      match OnError(store, sent, response)
      case Settle(s, result) => Outcome(s, result, [sent], 0)
      case Replay(_, _) => Outcome(store, Resolves(response), [sent], 0) // OnError never replays
      case Refresh(original, token) =>
        if fuel == 0 then Unsettled(store, 1)
        else
          match Dispatch(store, RefreshRequest(token), server, fuel - 1)
          case Unsettled(s, n) => Unsettled(s, n + 1)
          case Outcome(s, refresh, _, n) =>
            match Resume(s, original, refresh)
            case Settle(s2, result) => Outcome(s2, result, [sent], n + 1)
            case Refresh(_, _) => Outcome(s, refresh, [sent], n + 1) // Resume never refreshes
            case Replay(s2, replayed) =>
              var rest := Dispatch(s2, replayed, server, fuel);
              Outcome(rest.store, rest.result, [sent] + rest.sent, n + 1)
  }

  /** A fulfilled first attempt is handed back unchanged, with no refresh and no store change. */
  lemma SuccessPassesThrough(store: Store, config: Config, server: Config -> Reply, fuel: nat)
    requires server(AttachBearer(store, config)).Fulfilled?
    ensures Dispatch(store, config, server, fuel)
         == Outcome(store, Resolves(Some(server(AttachBearer(store, config)).answer)), [AttachBearer(store, config)], 0)
  {
  }

  /** Refresh success: the replay carries the new access token, the store holds it, the
      refresh token is kept, and if the replay is refused with 401 again that reply is
      handed back without a second refresh. */
  lemma RefreshThenReplay(store: Store, config: Config, server: Config -> Reply, fuel: nat, access: string, second: Response)
    requires !config.retry && Holds(store, RefreshKey) && fuel >= 1
    requires server(AttachBearer(store, config)) == Rejected(Some(Response(Unauthorized, JObj(map[]))))
    requires server(AttachBearer(store, RefreshRequest(store[RefreshKey])))
          == Fulfilled(Response(200, JObj(map["access" := JStr(access)])))
    requires access != ""
    ensures var o := Dispatch(store, config, server, fuel);
      && o.Outcome? && |o.sent| == 2
      && o.sent[1].retry
      && o.sent[1].headers[AuthorizationHeader] == Bearer(access)
      && AccessKey in o.store && o.store[AccessKey] == access
      && RefreshKey in o.store && o.store[RefreshKey] == store[RefreshKey]
      && o.refreshes == 1
      && (server(o.sent[1]) == Rejected(Some(second)) ==> o.result == Resolves(Some(second)))
  {
    var refresh := Resolves(Some(Response(200, JObj(map["access" := JStr(access)]))));
    var inner := Dispatch(store, RefreshRequest(store[RefreshKey]), server, fuel - 1);
    assert inner == Outcome(store, refresh, [AttachBearer(store, RefreshRequest(store[RefreshKey]))], 0);
    assert Member(refresh.response.value.data, "access") == Some(JStr(access));
    assert NewAccess(refresh) == access;
    var first := AttachBearer(store, config);
    var step := Resume(store, first.(retry := true), refresh);
    assert step.Replay?;
    assert Holds(step.store, AccessKey);
    var o := Dispatch(store, config, server, fuel);
    assert o.sent[1] == AttachBearer(step.store, step.config);
  }

  /** A refresh refused with an error other than 401 resolves through the response
      interceptor; its body has no `access` member, so the literal text "undefined" is
      stored as the access token and the request is replayed with it. */
  lemma ErrorBodyStoresUndefined(store: Store, config: Config, server: Config -> Reply, fuel: nat, status: int)
    requires !config.retry && Holds(store, RefreshKey) && fuel >= 1 && status != Unauthorized
    requires server(AttachBearer(store, config)) == Rejected(Some(Response(Unauthorized, JObj(map[]))))
    requires server(AttachBearer(store, RefreshRequest(store[RefreshKey])))
          == Rejected(Some(Response(status, JObj(map["detail" := JStr("Token is invalid")]))))
    ensures var o := Dispatch(store, config, server, fuel);
      && o.Outcome? && |o.sent| == 2
      && AccessKey in o.store && o.store[AccessKey] == "undefined"
      && o.sent[1].headers[AuthorizationHeader] == "Bearer undefined"
  {
    var refresh := Resolves(Some(Response(status, JObj(map["detail" := JStr("Token is invalid")]))));
    var inner := Dispatch(store, RefreshRequest(store[RefreshKey]), server, fuel - 1);
    assert inner.result == refresh;
    assert Member(refresh.response.value.data, "access") == None;
    assert NewAccess(refresh) == "undefined";
  }

  /** A refresh endpoint that answers 401 (a rejected refresh token) sends the refresh post
      back through the error handler: the refresh token is still stored, so it posts again,
      and again. Whatever the fuel, the call never settles and no token is removed. */
  lemma {:induction false} RefusedRefreshNeverSettles(store: Store, config: Config, server: Config -> Reply, fuel: nat)
    requires !config.retry && Holds(store, RefreshKey)
    requires server(AttachBearer(store, config)).Rejected?
    requires server(AttachBearer(store, config)).failure == Some(Response(Unauthorized, JNull))
    requires forall c: Config :: c.url == RefreshPath ==> server(c) == Rejected(Some(Response(Unauthorized, JNull)))
    ensures Dispatch(store, config, server, fuel) == Unsettled(store, fuel + 1)
    decreases fuel
  {
    if fuel > 0 {
      var post := RefreshRequest(store[RefreshKey]);
      assert AttachBearer(store, post).url == RefreshPath;
      RefusedRefreshNeverSettles(store, post, server, fuel - 1);
    }
  }

  /** The scenario: access "A1" has expired, refresh "R1" is exchanged for "A2", and the
      replay of `GET /customers/` with "Bearer A2" succeeds. */
  lemma ExpiredAccessScenario()
    ensures
      var store := map[AccessKey := "A1", RefreshKey := "R1"];
      var listed := Response(200, JArr([]));
      var server := (c: Config) =>
        if c.url == RefreshPath then Fulfilled(Response(200, JObj(map["access" := JStr("A2")])))
        else if AuthorizationHeader in c.headers && c.headers[AuthorizationHeader] == "Bearer A2"
        then Fulfilled(listed) else Rejected(Some(Response(Unauthorized, JObj(map[]))));
      var o := Dispatch(store, Config("/customers/", map[], JNull, false), server, 1);
      && o.Outcome? && o.result == Resolves(Some(listed)) && o.refreshes == 1
      && o.store == map[AccessKey := "A2", RefreshKey := "R1"]
  {
    var store := map[AccessKey := "A1", RefreshKey := "R1"];
    var refresh := Resolves(Some(Response(200, JObj(map["access" := JStr("A2")]))));
    assert Member(refresh.response.value.data, "access") == Some(JStr("A2"));
    assert NewAccess(refresh) == "A2";
    var first := AttachBearer(store, Config("/customers/", map[], JNull, false));
    assert first.headers[AuthorizationHeader] == "Bearer A1";
    assert "Bearer A1" != "Bearer A2" by { assert ("Bearer A1")[8] != ("Bearer A2")[8]; }
    assert "/customers/" != RefreshPath by { assert ("/customers/")[1] != RefreshPath[1]; }
    var replay := AttachBearer(store[AccessKey := "A2"], first.(retry := true, headers := first.headers[AuthorizationHeader := "Bearer A2"]));
    assert replay.headers[AuthorizationHeader] == "Bearer A2";
  }
}
